# A verified model of `usage`

`usage` describes a command-line interface in a small KDL-based spec language. It turns those specs into text (usage lines, KDL, JSON, man pages, markdown, Fig completion specs) and back, and it parses a command line against a spec. This project models the core of that system in Dafny and proves properties of the model:

- **The cobra integration** (`integrations/cobra/`):
  - `CobraSpec` is the spec tree the Go code builds and the part of a cobra/pflag host tree it reads.
  - `CobraConvert` is the conversion of a host tree.
  - `CobraKdl` is the KDL printer. Its render methods are proved to print exactly a reference node tree.
  - `CobraJson` is the JSON record shape.
- **The spec model of the Rust library** (`lib/src/spec/`):
  - `UsageSpec` is one datatype for the spec. It is the union of the library's slightly different versions of the record (see below).
  - `SpecArgs` and `SpecFlags` are the usage-string grammars of arguments and flags. `FlagUsageRoundTrip` proves that a flag's printed usage reads back.
  - `SpecCommands` covers the command usage line, merge, subcommand lookup and the depth-first subcommand list.
  - `SpecFile` covers reading a spec out of script comments, splitting a spec file, the ancestry paths, the spec merge and the name and binary defaults.
  - `SpecBuilders` holds the flag, argument and command builders, as classes.
- **Parsing a command line**:
  - `ArgvScan`, `ArgvWords` and `ArgvFinish` model `lib/src/parse.rs`:
    - subcommand descent with global flags and the default subcommand;
    - the word scan: `--`, restart tokens, grouped short flags, choices and variadic positionals;
    - validation, defaults and environment, and `as_env`.
  - `LegacyCli` models the older parser in `lib/src/cli.rs`.
- **Tools over the spec tree**:
  - `Lint` is the linter.
  - `Completion` is the completion of the word under the cursor.
  - `Layout` is help-text wrapping.
  - `DocsModels` is the documentation view of a spec, with its run-once markdown pass.
  - `Manpage` is the man-page renderer. The roff document is a list of request and text events.
  - `Fig` is the Fig completion spec.
  - `MarkdownGen` is the markdown directive splicer.
- **Older copies of the spec code**:
  - `LegacyArgs`, `LegacyFlags`, `LegacyFlagRoundTrip` and `LegacySpec` model the first crate's `src/parse/`, which uses an ASCII `...` and merges by appending.
  - `OlderSpec` models `lib/src/parse/spec.rs`, which reads the spec between two comment markers.
- **Shared helpers**: `Strings` holds the text helpers and `Wrappers` holds `Option` and `Result`.

Each file of the model follows one source file:

- **Pure code** is written as datatypes and functions, with lemmas.
- **Code that works step by step** is written as methods, each proved to compute its specification function. This covers:
  - the Go `append` loops and `strings.Builder` writes;
  - the parser loops;
  - the linter's issue list;
  - the roff event list;
  - the markdown render loop.
- **Objects updated in place** are written as classes: the builders, the roff document, the man-page renderer and the markdown builder.

Rust values that `&mut self` updates in place are owned trees with no aliasing, so they are modelled as functions that return the updated value. These are `SpecCommand::merge`, `set_subcommand_ancestors` and `render_md`.

`IndexMap`s are sequences of key/value entries. Inserting an existing key replaces its entry in place, and a new key is appended.

The library's sources disagree with each other on a few fields. The model follows the code that uses each field:

- an argument's default is a list;
- flags carry `var_min` and `var_max`;
- the double-dash choice has a `Preserve` variant.

The environment, the terminal width, file contents and file names are parameters.

## Model

| member | source | states |
|---|---|---|
| ArgvFinish.Unbound | lib/src/parse.rs:574 | The arguments after those bound (`cmd.args.iter().skip(args.len())`): the tail of the list, empty when all are bound. |
| ArgvFinish.MissingArgs | lib/src/parse.rs:574-585 | The missing-argument check reports only missing-argument errors. |
| ArgvFinish.MissingArgsSpec | lib/src/parse.rs:574-585 | An argument is reported exactly when one of that name is missing, and nothing else is reported. |
| ArgvFinish.CollectMissingArgs | lib/src/parse.rs:574-585 | The loop over the unbound arguments reports exactly the missing required arguments: required, without a default and without an environment value. |
| ArgvFinish.MissingFlagsSpec | lib/src/parse.rs:587-600 | A flag is reported exactly when one of that name is missing, each name at most once, and nothing else is reported. |
| ArgvFinish.CollectMissingFlags | lib/src/parse.rs:587-600 | The (corrected) loop over the table reports each missing required flag once: unset, required, with no default of its own or of its value, and no environment value. |
| ArgvFinish.VarArgErrors | lib/src/parse.rs:603-627 | The argument count check reports only too-few and too-many argument errors. |
| ArgvFinish.ArgCountErrorsSpec | lib/src/parse.rs:603-627 | The errors of one argument: too few values exactly when it is variadic and holds fewer than its minimum, too many likewise. |
| ArgvFinish.VarArgErrorsSpec | lib/src/parse.rs:603-627 | The errors of the arguments are those of each argument. |
| ArgvFinish.VarFlagErrors | lib/src/parse.rs:629-655 | The flag count check reports only too-few and too-many flag errors. |
| ArgvFinish.FlagCountErrorsSpec | lib/src/parse.rs:629-655 | The errors of one flag: too few values exactly when it is variadic and holds a list shorter than its minimum, too many likewise. |
| ArgvFinish.VarFlagErrorsSpec | lib/src/parse.rs:629-655 | The errors of the flags are those of each flag. |
| ArgvFinish.CheckArgCount | lib/src/parse.rs:604-625 | The check of one argument's values gives the too-few and too-many errors of that argument, and no others. |
| ArgvFinish.CollectVarArgErrors | lib/src/parse.rs:603-627 | The loop over the bound arguments gives the count errors of each argument, in order. |
| ArgvFinish.CheckFlagCount | lib/src/parse.rs:630-654 | The check of one flag's values gives the too-few and too-many errors of that flag, and no others. |
| ArgvFinish.CollectVarFlagErrors | lib/src/parse.rs:629-655 | The loop over the set flags gives the count errors of each flag, in order. |
| ArgvFinish.Validation | lib/src/parse.rs:574-655 | The validation after the scan never reports a help request: its errors are missing arguments, missing flags and count errors. |
| ArgvFinish.ParsePartial | lib/src/parse.rs:226-658 | A successful partial parse that holds a help request holds that request alone. |
| ArgvFinish.ParsePartialChain | lib/src/parse.rs:259-359 | A successful partial parse starts its chain of commands at the root and ends it at the command it reports. |
| ArgvFinish.ParsePartialReports | lib/src/parse.rs:574-600 | A successful partial parse has reported every missing argument and every missing flag. |
| ArgvFinish.ValidationReports | lib/src/parse.rs:574-600 | The checks report every missing argument and flag. |
| ArgvFinish.PhaseOneRoot | lib/src/parse.rs:259-359 | Phase 1 keeps the root at the head of the chain. |
| ArgvFinish.ParsePartialWords | lib/src/parse.rs:231-658 | The body of `parse_partial_with_env` computes the partial parse: phase 1, phase 2, then the missing and count checks. |
| ArgvFinish.Truths | lib/src/parse.rs:162-166 | Each default is read as a boolean: true exactly for `1`, `true`, `True` and `TRUE`. |
| ArgvFinish.ArgDefaultsBind | lib/src/parse.rs:104-130 | After the defaults, every argument with an environment value or a default is bound, and what was bound stays bound. |
| ArgvFinish.FlagDefaultsBind | lib/src/parse.rs:131-199 | After the defaults, every flag with an environment value or a default is bound, what was bound keeps its value, and nothing else is bound. |
| ArgvFinish.FirstHelp | lib/src/parse.rs:201-203 | The first help error, if any. |
| ArgvFinish.Parse | lib/src/parse.rs:92-208 | A successful parse carries no error; a failure of the validation reports at least one error, and none of them is a help request. |
| ArgvFinish.CompleteFillsArgs | lib/src/parse.rs:92-208 | When the checks reported every missing argument, a successful parse gives each unbound required argument without a default a value. |
| ArgvFinish.CompleteFillsFlags | lib/src/parse.rs:92-208 | When the checks reported every missing flag, a successful parse gives each required flag in scope a value. |
| ArgvFinish.ParseFillsRequiredArgs | lib/src/parse.rs:92-208 | A successful parse leaves no required argument without a value: each unbound required argument without a default had its environment variable applied. |
| ArgvFinish.ParseFillsRequiredFlags | lib/src/parse.rs:92-208 | A successful parse leaves no required flag in scope without a value. |
| ArgvFinish.ParseWords | lib/src/parse.rs:92-208 | The body of `Parser::parse` computes the full parse: the partial parse, the environment values and defaults, then the first help error, else all errors joined. |
| ArgvFinish.ApplyArgDefaults | lib/src/parse.rs:105-130 | The loop over the unbound arguments binds each to its environment value, else to its default(s), as the specification function says. |
| ArgvFinish.ApplyFlagDefaults | lib/src/parse.rs:132-199 | The loop over the flags in scope binds each unset flag to its environment value, else its default(s), else its value's default(s). |
| ArgvFinish.DuplicateMissingFlag | lib/src/parse.rs:587-600 | A required flag with a long and a short name sits in the table under both keys, and the check as written reports it twice; the corrected check reports it once. |
| ArgvFinish.TwiceMissing | lib/src/parse.rs:587-600 | The checks on a table listing a missing flag twice. |
| ArgvFinish.TwoKeyTable | lib/src/parse.rs:240-257 | The table of a command whose one flag is `-x, --xx`. |
| ArgvFinish.TwoKeyPairs | lib/src/parse.rs:245-250 | A flag `-x, --xx` is listed under `--xx` and then `-x`. |
| ArgvFinish.TwoKeyPuts | lib/src/parse.rs:36 | `--xx` sorts before `-x`, so inserting both in order keeps them so. |
| ArgvFinish.EnvCheckMismatch | lib/src/parse.rs:577-579 | With a custom map that lacks the variable while the process environment has it, the check as written counts the variable as set, yet the value is read from the custom map only: a required argument or flag is neither reported missing nor given a value. |
| ArgvFinish.AssignSpec | lib/src/parse.rs:680-695 | Inserting pairs into a map: the keys are the old ones and those of the pairs, and a key holds the value of its last pair. |
| ArgvFinish.CountTrue | lib/src/parse.rs:686 | The number of true values. |
| ArgvFinish.BoolTexts | lib/src/parse.rs:684 | Each boolean written as `true` or `false`. |
| ArgvFinish.FlagVars | lib/src/parse.rs:681-690 | One `usage_<snake name>` variable per set flag, in order, holding its value as text. |
| ArgvFinish.ArgVars | lib/src/parse.rs:691-694 | One `usage_<snake name>` variable per bound argument, in order, holding its displayed value. |
| ArgvFinish.Vars | lib/src/parse.rs:681-694 | The pairs `as_env` inserts: the flags', then the arguments'. |
| ArgvFinish.VarsFlag | lib/src/parse.rs:681-690 | The flag pairs come first, one per set flag, in order. |
| ArgvFinish.VarsArg | lib/src/parse.rs:691-694 | The argument pairs follow the flag pairs, one per bound argument, in order. |
| ArgvFinish.AsEnv | lib/src/parse.rs:679-696 | Every variable `as_env` exports is named `usage_…`. |
| ArgvFinish.AsEnvKeys | lib/src/parse.rs:679-696 | The variables are exactly those named after a flag or argument that has a value. |
| ArgvFinish.AsEnvArg | lib/src/parse.rs:691-694 | An argument's variable holds its displayed value, overriding a flag of the same name; the last argument of that name wins. |
| ArgvFinish.AsEnvFlag | lib/src/parse.rs:681-690 | A flag's variable holds its value when no argument and no later flag has the same variable. |
| ArgvFinish.CountedFlagText | lib/src/parse.rs:686 | A repeated boolean flag exports the number of times it was true, in decimal digits. |
| ArgvFinish.ExportEnv | lib/src/parse.rs:679-696 | `as_env` computes the map of the flag pairs and then the argument pairs, later pairs overriding earlier ones. |
| ArgvScan.BindGet | lib/src/parse.rs:424-425 | Inserting a parsed value (`out.flags.insert`/`out.args.insert`): the name maps to the new value, other names are untouched, and the map grows only for a new name. |
| ArgvScan.BindOther | lib/src/parse.rs:424-425 | Inserting a parsed value under one name leaves the value under any other name as it was. |
| ArgvScan.PushString | lib/src/parse.rs:490-496 | `entry(k).or_insert_with(MultiString).try_as_multi_string_mut().unwrap().push(w)`: the list under the name grows by `w`; `None` is the panic of `unwrap` when the name holds another kind of value. |
| ArgvScan.PushTrue | lib/src/parse.rs:415-421 | The same with `MultiBool` and `true`, for a counting flag: the list grows by `true`, or `None` for the panic of `unwrap`. |
| ArgvScan.PushStringGet | lib/src/parse.rs:535-541 | A list value grows by exactly the pushed element. |
| ArgvScan.PutGet | lib/src/parse.rs:293 | Inserting into the `available_flags` table: the key maps to the new flag and every other key keeps its flag. |
| ArgvScan.PutSorted | lib/src/parse.rs:36 | An insertion keeps the `BTreeMap` keys in increasing order. |
| ArgvScan.FlagKeys | lib/src/parse.rs:245-253 | The keys a flag is found under: `--long` for each long name, `-s` for each short one, then its negation. |
| ArgvScan.FlagPairs | lib/src/parse.rs:240-257 | The pairs `gather_flags` lists: for each flag in order, its keys, each paired with that flag. |
| ArgvScan.PutAllGet | lib/src/parse.rs:293 | After inserting pairs, a key holds the flag of a pair or the flag it held before; every key of the pairs is present; the order is kept. |
| ArgvScan.PutAllSorted | lib/src/parse.rs:293 | Extending the table keeps its keys in increasing order. |
| ArgvScan.Retain | lib/src/parse.rs:292 | `retain(\|_, f\| f.global)` keeps exactly the entries whose flag is global, in order. |
| ArgvScan.RetainSorted | lib/src/parse.rs:292 | Retaining keeps the keys in increasing order. |
| ArgvScan.RetainGet | lib/src/parse.rs:292 | Retaining removes exactly the non-global flags from the lookup. |
| ArgvScan.GatherGet | lib/src/parse.rs:240-264 | Every key of a command's table holds one of its flags under a name of that flag, and every name of every flag is a key. |
| ArgvScan.DescendedGet | lib/src/parse.rs:292-293 | A key of the descended table holds a global flag from before or one of the subcommand's own flags under one of its names; every name of the subcommand's flags is found; the keys stay sorted. |
| ArgvScan.FlagKey | lib/src/parse.rs:19-29 | `get_flag_key`: for a `--` word the part before the first `=`, else the first two characters of a word of two or more, else the word itself. |
| ArgvScan.NoEqualsInKey | lib/src/parse.rs:22 | What comes before the first `=` holds no `=`; a word with no `=` is not split. |
| ArgvScan.EqualsAfterDashes | lib/src/parse.rs:20-22 | The `=` of a long flag word comes after its two dashes. |
| ArgvScan.FlagKeyEquals | lib/src/parse.rs:19-29 | The flag key of `--name=value` is `--name`. |
| ArgvScan.SplitHasEquals | lib/src/parse.rs:407 | A word is split only where it holds an `=`. |
| ArgvScan.Phase1Step | lib/src/parse.rs:288-357 | One step of phase 1 always makes progress (fewer words left to look at), so the search ends. |
| ArgvScan.Phase1 | lib/src/parse.rs:287-359 | Phase 1 ends with its index inside the remaining input. |
| ArgvScan.FindIsChild | lib/src/spec/cmd.rs:338-354 | A subcommand found by `find_subcommand` is one of the command's own subcommands. |
| ArgvScan.EnterKeeps | lib/src/parse.rs:288-298 | Entering a found subcommand keeps the chain and the scope. |
| ArgvScan.DescendedScoped | lib/src/parse.rs:292-293 | After retaining the global flags and adding the subcommand's own, the table is scoped to the subcommand: each entry is a global flag or one of its flags, under one of that flag's names. |
| ArgvScan.Phase1StepKeeps | lib/src/parse.rs:288-357 | One step of phase 1 keeps the chain of commands and the scope of the flags, and the command it may add stands for the word it removes or is the default subcommand, entered once. |
| ArgvScan.Phase1Keeps | lib/src/parse.rs:287-359 | Phase 1 keeps the chain of commands and the scope of the flags, and every command it adds to the chain stands for one word it removed from the input, except the default subcommand, entered at most once without a word. |
| ArgvScan.StartKeeps | lib/src/parse.rs:259-266 | Phase 1 starts from a chain of one command with the table of its own flags. |
| ArgvScan.Descend | lib/src/parse.rs:281-359 | The phase 1 loop of `parse_partial_with_env` computes phase 1 from the start state: the chain of commands entered, the flags in scope and the remaining input. |
| ArgvScan.DescendOnce | lib/src/parse.rs:288-357 | The body of the phase 1 loop computes one step of phase 1, or reports that the search stops. |
| ArgvWords.ArgAt | lib/src/parse.rs:543 | `args.get(i)`: the argument at that position exactly when the position is inside the list. |
| ArgvWords.Rejected | lib/src/parse.rs:476-489 | A word outside the choices: it halts with a help request exactly when it asks for help (long when longer than two characters), else fails with the invalid-choice message. |
| ArgvWords.Hit | lib/src/parse.rs:411-427 | A word that names a flag never halts: a flag taking a value is queued to wait for it, a counting flag fails only on the `unwrap` panic, any other flag is set; the input and the arguments are untouched. |
| ArgvWords.BindGetTrue | lib/src/parse.rs:415-421 | A count that was pushed is present under the flag's name. |
| ArgvWords.LongWord | lib/src/parse.rs:405-435 | The long-flag checks: the value split off at the first `=` goes back to the front of the input, and whatever happens the words left weigh less than before. |
| ArgvWords.LongWeight | lib/src/parse.rs:407-410 | The value split off a long flag word and the rest of the word together weigh less than the word. |
| ArgvWords.ShortWord | lib/src/parse.rs:437-470 | The short-flag checks: pushing the rest of a `-xyz` group back never makes the words left weigh more than before, and a word passed on as a value leaves the queue and arguments alone. |
| ArgvWords.FlagValue | lib/src/parse.rs:474-513 | A value for a waiting flag is accepted only when it is among the flag's choices (if any); then it is appended (variadic flag) or set under the flag's name. |
| ArgvWords.TakeValues | lib/src/parse.rs:473-515 | Taking values empties the queue of waiting flags and leaves the input and the arguments alone. |
| ArgvWords.Positional | lib/src/parse.rs:519-571 | A positional word binds the next argument; with no argument left it halts for a help word and otherwise fails with `unexpected word`. |
| ArgvWords.ValueWord | lib/src/parse.rs:472-571 | A word that is not a flag never changes the remaining input. |
| ArgvWords.Step | lib/src/parse.rs:370-571 | One word of the phase 2 loop: whatever it does, the words left weigh less afterwards, so the loop ends. |
| ArgvWords.Run | lib/src/parse.rs:369-572 | The scan to the end of the input, or to the first word that asks for help or fails; when it goes on, no word is left. |
| ArgvWords.TakeValuesLoop | lib/src/parse.rs:473-515 | The `while let Some(flag) = flag_awaiting_value.pop()` loop computes taking the values: the last waiting flag gets the word, the others the empty string. |
| ArgvWords.ScanWords | lib/src/parse.rs:365-572 | The phase 2 loop of `parse_partial_with_env` computes the scan of the remaining input from its start state. |
| ArgvWords.EqualsFormSame | lib/src/parse.rs:405-413 | `--name=value` and `--name value` bind the same: both leave the flag waiting with the value next in line. |
| ArgvWords.HelpWordHalts | lib/src/parse.rs:429-433 | A help word that names no flag stops the scan with a help request, long for `--help`, even while a flag waits for its value. |
| ArgvWords.AfterDoubleDash | lib/src/parse.rs:386-402 | After `--` every word is a positional word, whatever it looks like. |
| ArgvWords.ShortGroup | lib/src/parse.rs:437-459 | `-xyz` with `-x` a plain flag sets `-x` and puts `-yz` back in front. |
| ArgvWords.VariadicCollects | lib/src/parse.rs:519-545 | Words that are neither flags nor the restart token all go, in order, to a variadic argument with no maximum and no choices. |
| ArgvWords.RunNext | lib/src/parse.rs:369-572 | A step that goes on leaves the rest of the scan to the new state. |
| ArgvWords.VariadicStep | lib/src/parse.rs:535-545 | One step of the above: the first word is appended. |
| ArgvWords.PlainStep | lib/src/parse.rs:519-565 | A word that is neither a flag nor the restart token, with no flag waiting, is a positional word. |
| ArgvWords.VariadicPush | lib/src/parse.rs:535-541 | A positional word for a variadic argument with no maximum and no choices is appended to it. |
| ArgvWords.VariadicAdvance | lib/src/parse.rs:535-545 | The above, stated for the rest of the scan. |
| SpecBuilders.FlagListsInOrder | lib/src/spec/builder.rs:54-101 | `short` and `shorts`, `long` and `longs`, `default_value` and `default_values` append, in the order of the calls. |
| SpecBuilders.FlagNameLastWrite | lib/src/spec/builder.rs:48-51 | The name is the one given by the last `name` call. |
| SpecBuilders.FlagHelpLastWrite | lib/src/spec/builder.rs:104-107 | The help is the one given by the last `help` call. |
| SpecBuilders.FlagNotRequiredAfterDefault | lib/src/spec/builder.rs:82-101 | Giving a default makes the flag optional, and only `required` can make it required again. |
| SpecBuilders.FlagRequiredWithoutDefaults | lib/src/spec/builder.rs:89-101 | Without any default, requiredness is what the last `required` call said: empty `default_values` calls leave it alone. |
| SpecBuilders.FlagBuilt | lib/src/spec/builder.rs:188-199 | What `SpecFlagBuilder::build` returns: the usage is computed first, then an empty name is derived from the first long, else the first short name. |
| SpecBuilders.FlagBuiltNamed | lib/src/spec/builder.rs:188-199 | `build` as it would be had the name been derived before the usage. |
| SpecBuilders.BuiltUsageHasColon | lib/src/spec/builder.rs:188-199 | An unnamed flag whose name can be derived stores a usage that starts with `:`, which is not the usage of the flag `build` returns: the usage was computed while the name was still empty. |
| SpecBuilders.UsageNamedFirst | lib/src/spec/flag.rs:147-167 | A flag whose name is the derived one and that has a short or a long name has a usage that starts with `-`. |
| SpecBuilders.BuiltNamedUsage | lib/src/spec/builder.rs:188-199 | Deriving the name first stores the usage of the flag returned, and an unnamed flag's usage never starts with `:`. |
| SpecBuilders.FlagBuilder.constructor | lib/src/spec/builder.rs:43-45 | `SpecFlagBuilder::new` starts from the default flag. |
| SpecBuilders.FlagBuilder.Calls | lib/src/spec/builder.rs:48-185 | A chain of setter calls on a new builder leaves the flag the calls describe, applied in order. |
| SpecBuilders.FlagBuilder.Call | lib/src/spec/builder.rs:48-185 | Any one setter updates the flag as that setter does, and nothing else. |
| SpecBuilders.FlagBuilder.Name | lib/src/spec/builder.rs:48-51 | `name` replaces the name; nothing else changes. |
| SpecBuilders.FlagBuilder.Short | lib/src/spec/builder.rs:54-57 | `short` appends one short name; nothing else changes. |
| SpecBuilders.FlagBuilder.Shorts | lib/src/spec/builder.rs:60-63 | `shorts` appends the short names, in order; nothing else changes. |
| SpecBuilders.FlagBuilder.Long | lib/src/spec/builder.rs:66-69 | `long` appends one long name; nothing else changes. |
| SpecBuilders.FlagBuilder.Longs | lib/src/spec/builder.rs:72-79 | `longs` appends the long names, in order; nothing else changes. |
| SpecBuilders.FlagBuilder.DefaultValue | lib/src/spec/builder.rs:82-86 | `default_value` appends a default and makes the flag optional. |
| SpecBuilders.FlagBuilder.DefaultValues | lib/src/spec/builder.rs:89-101 | `default_values` appends the defaults and makes the flag optional when it then has any default. |
| SpecBuilders.FlagBuilder.Help | lib/src/spec/builder.rs:104-107 | `help` sets the help text; nothing else changes. |
| SpecBuilders.FlagBuilder.HelpLong | lib/src/spec/builder.rs:110-113 | `help_long` sets the long help; nothing else changes. |
| SpecBuilders.FlagBuilder.HelpMd | lib/src/spec/builder.rs:116-119 | `help_md` sets the markdown help; nothing else changes. |
| SpecBuilders.FlagBuilder.Var | lib/src/spec/builder.rs:122-125 | `var` sets variadicity; nothing else changes. |
| SpecBuilders.FlagBuilder.VarMin | lib/src/spec/builder.rs:128-131 | `var_min` sets the minimum count; nothing else changes. |
| SpecBuilders.FlagBuilder.VarMax | lib/src/spec/builder.rs:134-137 | `var_max` sets the maximum count; nothing else changes. |
| SpecBuilders.FlagBuilder.Required | lib/src/spec/builder.rs:140-143 | `required` sets requiredness, whatever the defaults; nothing else changes. |
| SpecBuilders.FlagBuilder.Global | lib/src/spec/builder.rs:146-149 | `global` sets the global mark; nothing else changes. |
| SpecBuilders.FlagBuilder.Hide | lib/src/spec/builder.rs:152-155 | `hide` sets the hidden mark; nothing else changes. |
| SpecBuilders.FlagBuilder.Count | lib/src/spec/builder.rs:158-161 | `count` sets the counter mark; nothing else changes. |
| SpecBuilders.FlagBuilder.ArgOf | lib/src/spec/builder.rs:164-167 | `arg` sets the value the flag takes; nothing else changes. |
| SpecBuilders.FlagBuilder.Negate | lib/src/spec/builder.rs:170-173 | `negate` sets the negation; nothing else changes. |
| SpecBuilders.FlagBuilder.Env | lib/src/spec/builder.rs:176-179 | `env` sets the environment variable; nothing else changes. |
| SpecBuilders.FlagBuilder.Deprecated | lib/src/spec/builder.rs:182-185 | `deprecated` sets the deprecation message; nothing else changes. |
| SpecBuilders.FlagBuilder.Build | lib/src/spec/builder.rs:188-199 | `build` returns the flag with its usage computed from the flag as built and, when it had no name, the name derived from the first long, else first short name. |
| SpecBuilders.ArgDefaultsInOrder | lib/src/spec/builder.rs:221-239 | `default_value` and `default_values` append in call order. |
| SpecBuilders.ArgNotRequiredAfterDefault | lib/src/spec/builder.rs:221-282 | Giving an argument a default makes it optional, and only `required` can make it required again. |
| SpecBuilders.ArgBuilt | lib/src/spec/builder.rs:297-300 | What `SpecArgBuilder::build` returns: the argument with its usage. |
| SpecBuilders.ArgBuiltRoundTrip | lib/src/spec/builder.rs:297-300 | The usage a built argument stores reads back as that argument's name, requiredness and variadicity. |
| SpecBuilders.ArgDoubleDashOptional | lib/src/spec/builder.rs:208-300 | No setter of the argument builder touches the double-dash mode. |
| SpecBuilders.ArgBuilder.constructor | lib/src/spec/builder.rs:210-212 | `SpecArgBuilder::new` starts from the default argument. |
| SpecBuilders.ArgBuilder.Calls | lib/src/spec/builder.rs:215-294 | A chain of setter calls on a new builder leaves the argument the calls describe, applied in order. |
| SpecBuilders.ArgBuilder.Call | lib/src/spec/builder.rs:215-294 | Any one setter updates the argument as that setter does, and nothing else. |
| SpecBuilders.ArgBuilder.Name | lib/src/spec/builder.rs:215-218 | `name` replaces the name; nothing else changes. |
| SpecBuilders.ArgBuilder.DefaultValue | lib/src/spec/builder.rs:221-225 | `default_value` appends a default and makes the argument optional. |
| SpecBuilders.ArgBuilder.DefaultValues | lib/src/spec/builder.rs:228-239 | `default_values` appends the defaults and makes the argument optional when it then has any default. |
| SpecBuilders.ArgBuilder.Help | lib/src/spec/builder.rs:243-246 | `help` sets the help text; nothing else changes. |
| SpecBuilders.ArgBuilder.HelpLong | lib/src/spec/builder.rs:249-252 | `help_long` sets the long help; nothing else changes. |
| SpecBuilders.ArgBuilder.HelpMd | lib/src/spec/builder.rs:255-258 | `help_md` sets the markdown help; nothing else changes. |
| SpecBuilders.ArgBuilder.Var | lib/src/spec/builder.rs:261-264 | `var` sets variadicity; nothing else changes. |
| SpecBuilders.ArgBuilder.VarMin | lib/src/spec/builder.rs:267-270 | `var_min` sets the minimum count; nothing else changes. |
| SpecBuilders.ArgBuilder.VarMax | lib/src/spec/builder.rs:273-276 | `var_max` sets the maximum count; nothing else changes. |
| SpecBuilders.ArgBuilder.Required | lib/src/spec/builder.rs:279-282 | `required` sets requiredness, whatever the defaults; nothing else changes. |
| SpecBuilders.ArgBuilder.Hide | lib/src/spec/builder.rs:285-288 | `hide` sets the hidden mark; nothing else changes. |
| SpecBuilders.ArgBuilder.Env | lib/src/spec/builder.rs:291-294 | `env` sets the environment variable; nothing else changes. |
| SpecBuilders.ArgBuilder.Build | lib/src/spec/builder.rs:297-300 | `build` returns the argument with its usage computed; nothing else is changed. |
| SpecBuilders.CommandListsInOrder | lib/src/spec/builder.rs:322-379 | `alias`/`aliases`, `hidden_alias`/`hidden_aliases`, `flag`/`flags` and `arg`/`args` append in call order; the builder adds no subcommands. |
| SpecBuilders.CommandNameLastWrite | lib/src/spec/builder.rs:316-319 | The name is the one given by the last `name` call. |
| SpecBuilders.CommandBuilt | lib/src/spec/builder.rs:418-421 | What `SpecCommandBuilder::build` returns: the command with its usage. |
| SpecBuilders.CommandBuiltUsage | lib/src/spec/builder.rs:418-421 | A built command's usage is computed from its own flags and arguments: it is the usage of the command `build` returns. |
| SpecBuilders.CommandBuilder.constructor | lib/src/spec/builder.rs:311-313 | `SpecCommandBuilder::new` starts from the default command. |
| SpecBuilders.CommandBuilder.Calls | lib/src/spec/builder.rs:316-415 | A chain of setter calls on a new builder leaves the command the calls describe, applied in order. |
| SpecBuilders.CommandBuilder.Call | lib/src/spec/builder.rs:316-415 | Any one setter updates the command as that setter does, and nothing else. |
| SpecBuilders.CommandBuilder.Name | lib/src/spec/builder.rs:316-319 | `name` replaces the name; nothing else changes. |
| SpecBuilders.CommandBuilder.Alias | lib/src/spec/builder.rs:322-325 | `alias` appends one alias; nothing else changes. |
| SpecBuilders.CommandBuilder.Aliases | lib/src/spec/builder.rs:328-337 | `aliases` appends the aliases, in order; nothing else changes. |
| SpecBuilders.CommandBuilder.HiddenAlias | lib/src/spec/builder.rs:340-343 | `hidden_alias` appends one hidden alias; nothing else changes. |
| SpecBuilders.CommandBuilder.HiddenAliases | lib/src/spec/builder.rs:346-355 | `hidden_aliases` appends the hidden aliases, in order; nothing else changes. |
| SpecBuilders.CommandBuilder.AddFlag | lib/src/spec/builder.rs:358-361 | `flag` appends one flag; nothing else changes. |
| SpecBuilders.CommandBuilder.AddFlags | lib/src/spec/builder.rs:364-367 | `flags` appends the flags, in order; nothing else changes. |
| SpecBuilders.CommandBuilder.AddArg | lib/src/spec/builder.rs:370-373 | `arg` appends one argument; nothing else changes. |
| SpecBuilders.CommandBuilder.AddArgs | lib/src/spec/builder.rs:376-379 | `args` appends the arguments, in order; nothing else changes. |
| SpecBuilders.CommandBuilder.Help | lib/src/spec/builder.rs:382-385 | `help` sets the help text; nothing else changes. |
| SpecBuilders.CommandBuilder.HelpLong | lib/src/spec/builder.rs:388-391 | `help_long` sets the long help; nothing else changes. |
| SpecBuilders.CommandBuilder.HelpMd | lib/src/spec/builder.rs:394-397 | `help_md` sets the markdown help; nothing else changes. |
| SpecBuilders.CommandBuilder.Hide | lib/src/spec/builder.rs:400-403 | `hide` sets the hidden mark; nothing else changes. |
| SpecBuilders.CommandBuilder.SubcommandRequired | lib/src/spec/builder.rs:406-409 | `subcommand_required` sets that mark; nothing else changes. |
| SpecBuilders.CommandBuilder.Deprecated | lib/src/spec/builder.rs:412-415 | `deprecated` sets the deprecation message; nothing else changes. |
| SpecBuilders.CommandBuilder.Build | lib/src/spec/builder.rs:418-421 | `build` returns the command with its usage computed; nothing else is changed. |
| CobraConvert.ParseArgTokenForms | integrations/cobra/convert.go:199-221 | A token after the `...` suffix is taken off is an argument exactly when it is bracketed by `<>` or `[]`; its name is what lies between the brackets, `<>` makes it required, and the suffix makes it variadic. |
| CobraConvert.ParseArgTokenRoundTrip | integrations/cobra/convert.go:199-221 | Every argument survives being written as a `Use` token and read back. |
| CobraConvert.ArgsOfTokens | integrations/cobra/convert.go:183-194 | The arguments the tokens after the command name declare: `[flags]`/`[options]` placeholders (any case) and unrecognised tokens are dropped, the rest kept in order. |
| CobraConvert.ArgsOfTokensAppend | integrations/cobra/convert.go:183-194 | The tokens' order is kept: the arguments of a concatenation are the concatenation of the arguments. |
| CobraConvert.ArgsOfOneToken | integrations/cobra/convert.go:183-194 | One token gives its argument, or nothing for a placeholder or an unrecognised token. |
| CobraConvert.ParseArgsFromUse | integrations/cobra/convert.go:174-196 | `parseArgsFromUse` returns the arguments declared by the words of `Use` after the first; a `Use` of one word or none declares none. |
| CobraConvert.ArgNameOf | integrations/cobra/convert.go:156 | The name of a flag's value keeps the flag name's length, has no `-` (each became `_`) and no lower-case ASCII letter. |
| CobraConvert.ConvertFlag | integrations/cobra/convert.go:121-170 | `convertFlag` yields the modelled flag: names, help, hidden and deprecation copied, required from the one-required annotation, the value shape chosen by the pflag type and a zero default dropped. |
| CobraConvert.FlagShapes | integrations/cobra/convert.go:147-162 | How a pflag type decides the shape of the converted flag: `bool` takes no value, `count` is a variadic counter without a value, every other type takes exactly one required value named after the flag; a default is recorded exactly when it is not a zero value. |
| CobraConvert.PersistentFlagsOf | integrations/cobra/convert.go:90-101 | The converted persistent flags: builtins dropped, every flag global. |
| CobraConvert.FlagNames | integrations/cobra/convert.go:112 | The names `Lookup` can find: every flag's name, and nothing else. |
| CobraConvert.LocalFlagsOf | integrations/cobra/convert.go:105-118 | The converted local flags: builtins dropped, and on the root a flag that is also persistent (by name) dropped too; none is global. |
| CobraConvert.ConvertPersistentFlags | integrations/cobra/convert.go:90-101 | `convertPersistentFlags` visits the persistent flags in order, drops the builtin ones and marks the rest global. |
| CobraConvert.ConvertLocalFlags | integrations/cobra/convert.go:105-118 | `convertLocalFlags` visits the local flags in order, drops the builtin ones and, on the root, those also found among the persistent flags. |
| CobraConvert.ChoicesOnFirst | integrations/cobra/convert.go:30-32 | Valid args become the choices of the first argument, if there is one. |
| CobraConvert.CommandOf | integrations/cobra/convert.go:44-87 | `convertCommand` as a value: children that are builtins are dropped with their whole subtree, and a command with converted children but no arguments requires a subcommand. |
| CobraConvert.CommandsOf | integrations/cobra/convert.go:72-78 | The converted children, in order, without the builtin ones. |
| CobraConvert.RootOf | integrations/cobra/convert.go:11-41 | `convertRoot` as a value: the root never requires a subcommand, and a local flag that is also persistent is listed once, as global. |
| CobraConvert.ConvertCommand | integrations/cobra/convert.go:44-87 | `convertCommand` builds the converted command, recursively, with builtin children skipped and a subcommand required when it has children but no arguments. |
| CobraConvert.ConvertRoot | integrations/cobra/convert.go:11-41 | `convertRoot` builds the converted spec: name and bin from the command name, persistent then local flags, arguments with valid args on the first, builtin children skipped. |
| CobraConvert.CommandHasNoBuiltins | integrations/cobra/convert.go:73-78 | No command or flag of a converted command's tree is one of cobra's builtins. |
| CobraConvert.CommandsHaveNoBuiltins | integrations/cobra/convert.go:73-78 | No converted child, nor anything below it, is one of cobra's builtin commands or flags. |
| CobraConvert.RootHasNoBuiltins | integrations/cobra/convert.go:34-39 | The whole converted tree is free of cobra's builtin commands and flags; a builtin child's subtree is never visited. |
| CobraConvert.GlobalFlagsFirst | integrations/cobra/convert.go:26-27 | The flags of a command are its global ones followed by its local ones. |
| CobraConvert.ChoicesOnlyOnFirst | integrations/cobra/convert.go:30-32 | Valid args only ever reach the first argument, and only when the `Use` line declares one. |
| CobraConvert.ArgsHaveNoChoices | integrations/cobra/convert.go:199-221 | An argument read from the `Use` line never carries choices of its own. |
| CobraConvert.StringDefaultZeroDropped | integrations/cobra/convert.go:165 | A string flag whose default is "0" loses its default. |
| CobraConvert.CommandPlaceholderKept | integrations/cobra/convert.go:183-194 | `app [command]` declares an optional positional named `command`. |
| CobraConvert.CommandPlaceholderToken | integrations/cobra/convert.go:212-214 | The token `[command]` is read as an optional argument named `command`. |
| CobraConvert.ParentWithoutArgsRequiresSubcommand | integrations/cobra/convert.go:79-84 | A command with converted children and no declared arguments requires a subcommand, whether or not it is runnable itself. |
| CobraJson.ArgJsonShape | integrations/cobra/json.go:182-204 | The usage of an argument is its name between `<` and `>` when it is required and between `[` and `]` otherwise, with no ellipsis even when it is variadic; its choices are listed exactly when it has some. |
| CobraJson.ArgUsageAgainstKdl | integrations/cobra/json.go:193-197 | The JSON usage of an argument is the KDL usage without the ellipsis that marks a variadic argument there. |
| CobraJson.FlagJsonNames | integrations/cobra/json.go:142-158 | A flag is named by its long name when it has one, else by its short one; each of the short and long lists holds that name or nothing. |
| CobraJson.FlagJsonArg | integrations/cobra/json.go:174-177 | A flag's value, when it takes one, is described as an argument. |
| CobraJson.FlagUsageShape | integrations/cobra/json.go:160-172 | The usage of a flag spelled out: `-s --long`, `-s` or `--long`, then ` <ARG>` when it takes a value. |
| CobraJson.SubcommandKeys | integrations/cobra/json.go:123-127 | The subcommand map has one key per distinct subcommand name. |
| CobraJson.SubcommandLastWins | integrations/cobra/json.go:123-127 | A subcommand's entry is built from the last sibling with its name. |
| CobraJson.CommandJsonWellFormed | integrations/cobra/json.go:100-130 | A command's JSON record sits at the path it was given, keeps its aliases, and every command below it is well formed. |
| CobraJson.SubcommandsWellFormed | integrations/cobra/json.go:123-127 | Every subcommand entry is stored under its own name, sits at the parent's path extended by that name, and is well formed. |
| CobraJson.SpecJsonRoot | integrations/cobra/json.go:68-98 | The root has an empty path, the spec's name and no aliases; its children sit at one-element paths; the top-level usage is never set. |
| CobraJson.AppendFlags | integrations/cobra/json.go:117-119 | The flags loop appends `flagToJSON` of each flag, in order. |
| CobraJson.AppendArgs | integrations/cobra/json.go:120-122 | The arguments loop appends `argToJSON` of each argument, in order. |
| CobraJson.FillSubcommands | integrations/cobra/json.go:123-127 | The subcommands loop: each child is converted at a fresh copy of the parent's path extended by its name, and stored under its name. |
| CobraJson.CommandToJson | integrations/cobra/json.go:100-130 | `commandToJSON` builds the command record at the given path: flags and arguments converted one by one, each subcommand at its own extended path and stored under its name. |
| CobraJson.ToJson | integrations/cobra/json.go:68-98 | `toJSON` builds the spec record whose root command has an empty path, no aliases and the converted flags, arguments and subcommands. |
| CobraKdl.HasSpecialAt | integrations/cobra/kdl.go:318-323 | The character scan of `needsQuoting` fires exactly when some character of the string is one of the KDL special characters. |
| CobraKdl.NeedsQuoting | integrations/cobra/kdl.go:310-325 | `needsQuoting`: true for the empty string, for a leading digit and for any KDL special character, false otherwise. |
| CobraKdl.KdlQuoteAlways | integrations/cobra/kdl.go:303-307 | `kdlQuoteAlways`: the two whole-string replacements (backslashes first, then quotes) between double quotes yield the per-character escape of the string. |
| CobraKdl.EscapeByReplacing | integrations/cobra/kdl.go:304-305 | Replacing backslashes and then quotes is the same as escaping each character: the backslashes the first step inserts are not touched by the second. |
| CobraKdl.KdlQuoteMethod | integrations/cobra/kdl.go:291-300 | `kdlQuote`: `""` for the empty string, the quoted escape when quoting is needed, the bare string otherwise. |
| CobraKdl.UnescapeEscape | integrations/cobra/kdl.go:303-307 | Undoing the escape of `kdlQuoteAlways` gives back the original string. |
| CobraKdl.QuoteAlwaysRoundTrip | integrations/cobra/kdl.go:303-307 | Whatever `kdlQuoteAlways` writes reads back as the original string. |
| CobraKdl.KdlQuoteRoundTrip | integrations/cobra/kdl.go:291-300 | Whatever `kdlQuote` writes reads back as the original string, and it is left bare exactly when no quoting is needed. |
| CobraKdl.PrintShape | integrations/cobra/kdl.go:78-116 | A printed node starts with its indented line and ends its last line; a block ends with a closing brace at the indentation of the line that opened it. |
| CobraKdl.ValueNodes | integrations/cobra/kdl.go:180-186 | One child per value of a multi-valued default or choices block, each the always-quoted value on its own line. |
| CobraKdl.MetaNodes | integrations/cobra/kdl.go:12-30 | At most six metadata lines, the name first when there is one, quoted as needed. |
| CobraKdl.SpecNodes | integrations/cobra/kdl.go:9-48 | The document holds one node per root flag, argument and command, after at most six metadata lines, the name line first when the spec is named. |
| CobraKdl.PrintFlagNode | integrations/cobra/kdl.go:165-210 | How a flag node prints: a line alone, or a line opening a block. |
| CobraKdl.PrintArgNode | integrations/cobra/kdl.go:256-286 | An argument node prints as one line, or as a line opening a block exactly when it has choices (even none) or several defaults. |
| CobraKdl.PrintCmdNode | integrations/cobra/kdl.go:72-116 | A command node prints as one line, or as a line opening a block exactly when it has long help, aliases, flags, arguments or subcommands. |
| CobraKdl.ArgTitleReadsBack | integrations/cobra/kdl.go:218-235 | An argument's usage reads back from what is written for it, whether bare or quoted, and it is quoted exactly when the argument is optional. |
| CobraKdl.FlagNameSpelled | integrations/cobra/kdl.go:124-132 | The name of a flag spelled out: `-s --long`, `-s` or `--long`. |
| CobraKdl.FlagNameReadsBack | integrations/cobra/kdl.go:124-134 | A flag's `-s --long` name reads back from what is written for it. |
| CobraKdl.ValueNodesReadBack | integrations/cobra/kdl.go:180-186 | Every value of a multi-valued default or of a choices block sits on its own line and reads back as itself, in order. |
| CobraKdl.CmdChildrenEndWithSubcommands | integrations/cobra/kdl.go:86-113 | A command's block lists its subcommands last, one node each, in order. |
| CobraKdl.RenderValues | integrations/cobra/kdl.go:183-185 | The values of a multi-valued default or of a choices block, one quoted value per line. |
| CobraKdl.RenderValuesBlock | integrations/cobra/kdl.go:180-187 | A `default` or `choices` block: the key, then one quoted value per line one level deeper, then the closing brace. |
| CobraKdl.FlagNameParts | integrations/cobra/kdl.go:124-132 | The `-s --long` name of a flag, from its non-empty parts. |
| CobraKdl.RenderFlagLine | integrations/cobra/kdl.go:134-162 | The first line of `renderFlag` after the indentation: the quoted name, then each property that is set, in a fixed order. |
| CobraKdl.RenderFlagArg | integrations/cobra/kdl.go:189-207 | The value node that `renderFlag` writes inside a flag's block. |
| CobraKdl.RenderFlagChildren | integrations/cobra/kdl.go:172-209 | The children block of `renderFlag`: long help, several defaults, then the value. |
| CobraKdl.RenderFlag | integrations/cobra/kdl.go:120-211 | `renderFlag` writes exactly the printed flag node: its line, and a block exactly when the flag has long help, several defaults or a value. |
| CobraKdl.RenderArgLine | integrations/cobra/kdl.go:218-253 | The first line of `renderArg` after the indentation: the usage, bare or quoted, then each property that is set, in a fixed order. |
| CobraKdl.RenderArgChildren | integrations/cobra/kdl.go:263-285 | The children block of `renderArg`: several defaults, then the choices. |
| CobraKdl.RenderArg | integrations/cobra/kdl.go:214-287 | `renderArg` writes exactly the printed argument node; a block follows the line whenever the argument has choices, even none, or several defaults. |
| CobraKdl.RenderFlags | integrations/cobra/kdl.go:101-103 | The flags of one command, in order. |
| CobraKdl.RenderArgs | integrations/cobra/kdl.go:106-108 | The arguments of one command, in order. |
| CobraKdl.RenderCommands | integrations/cobra/kdl.go:111-113 | The subcommands of one command, in order. |
| CobraKdl.RenderCommandLine | integrations/cobra/kdl.go:56-69 | The first line of `renderCommand` after the indentation: the quoted name, then each property that is set, in a fixed order. |
| CobraKdl.RenderAliases | integrations/cobra/kdl.go:87-93 | The `alias` line of a command, each alias quoted when needed. |
| CobraKdl.RenderCommandChildren | integrations/cobra/kdl.go:83-116 | The children block of `renderCommand`: aliases, long help, flags, arguments, then subcommands. |
| CobraKdl.RenderCommand | integrations/cobra/kdl.go:51-117 | `renderCommand` writes exactly the printed command node: a block follows the line exactly when the command has long help, aliases, flags, arguments or subcommands, listed in that order. |
| CobraKdl.RenderMetaLine | integrations/cobra/kdl.go:13-30 | One metadata line of `renderKDL`, written only when the value is set. |
| CobraKdl.RenderMeta | integrations/cobra/kdl.go:12-30 | The metadata lines of `renderKDL`. |
| CobraKdl.RenderKdl | integrations/cobra/kdl.go:9-48 | `renderKDL`: the metadata lines, then the root's flags, arguments and subcommands, all at depth zero. |
| Completion.LastWordCompleted | cli/src/cli/complete_word.rs:51-53 | Without an index the last word is completed and every earlier word is parsed; with no words at all the token is empty. |
| Completion.TokenFollowsBefore | cli/src/cli/complete_word.rs:51-53 | The parsed words and the token are the words up to and including the current one. |
| Completion.PrevAsWritten | cli/src/cli/complete_word.rs:63 | `cword - 1` on a 64-bit `usize` as written; in a release build the subtraction wraps (a debug build panics). |
| Completion.PrevUnderflows | cli/src/cli/complete_word.rs:51-63 | With the default index and a single word (or none), `PREV` wraps to the largest `usize` instead of naming a word. |
| Completion.Prev | cli/src/cli/complete_word.rs:63 | The corrected previous index: absent at the first word, else the index before the current one. |
| Completion.PrevAgrees | cli/src/cli/complete_word.rs:63 | Away from the first word the corrected index agrees with the written subtraction. |
| Completion.WithPrefix | cli/src/cli/complete_word.rs:102 | The candidates starting with a prefix, in order (`filter(starts_with)`), and no others. |
| Completion.SortDistinct | cli/src/cli/complete_word.rs:103 | Sorting distinct candidates keeps them distinct. |
| Completion.FilterDistinct | cli/src/cli/complete_word.rs:102 | Filtering distinct candidates keeps them distinct. |
| Completion.CandidatesOf | cli/src/cli/complete_word.rs:91-99 | A word is pushed by the loop exactly when it is the name or an alias of a subcommand that is not hidden. |
| Completion.SubcommandChoicesSpec | cli/src/cli/complete_word.rs:88-105 | The choices are sorted, and a word is offered exactly when it starts with the token and is the name or an alias of a subcommand that is not hidden. |
| Completion.PushAliases | cli/src/cli/complete_word.rs:96-98 | The alias loop appends the aliases in order. |
| Completion.CompleteSubcommands | cli/src/cli/complete_word.rs:88-105 | `complete_subcommands` computes the filtered, sorted list of the names and aliases of the shown subcommands. |
| Completion.LongNamesOf | cli/src/cli/complete_word.rs:111-115 | A long name is collected exactly when some flag in scope that is not hidden has it. |
| Completion.ShortNamesOf | cli/src/cli/complete_word.rs:125-129 | A short name is collected exactly when some flag in scope that is not hidden has it. |
| Completion.InChoices | cli/src/cli/complete_word.rs:115-118 | A marked name is offered exactly when the name is one of the names and starts with the prefix. |
| Completion.ChoicesExtend | cli/src/cli/complete_word.rs:116-117 | Every offered word starts with the marker followed by the prefix. |
| Completion.ChoicesDistinct | cli/src/cli/complete_word.rs:115-119 | Distinct names give sorted, distinct choices. |
| Completion.SelectorMatch | cli/src/cli/complete_word.rs:124-130 | A short name passes the selector when the token has no second character or has that name there. |
| Completion.SelectorRest | cli/src/cli/complete_word.rs:124 | A short token of at most two characters is `-` and its selector. |
| Completion.LongChoicesSpec | cli/src/cli/complete_word.rs:107-120 | The long choices are sorted and distinct, and `--l` is offered exactly when `l` is a long name of a flag in scope that is not hidden and `l` starts with the token less its leading `--`. |
| Completion.ShortChoicesSpec | cli/src/cli/complete_word.rs:122-134 | The short choices are sorted and distinct, and `-c` is offered exactly when `c` is a short name of a flag in scope that is not hidden and the token has no second character or has `c` there. |
| Completion.Dispatch | cli/src/cli/complete_word.rs:67-83 | Completing the current word fails exactly when the parsed command has no subcommands, the word does not start with `-`, and the flag waiting for a value has no argument to complete; with nothing waiting and every argument bound, nothing is offered. |
| Completion.Complete | cli/src/cli/complete_word.rs:50-85 | A failure of the legacy parse of the earlier words is the failure of the completion; when the parsed command has subcommands, the completion is an offer. |
| Completion.BareDash | cli/src/cli/complete_word.rs:69-72 | For a bare `-` every short and every long name is offered, and each starts with `-`. |
| Completion.ShortsDash | cli/src/cli/complete_word.rs:131 | Every short choice starts with `-`. |
| Completion.LongsDash | cli/src/cli/complete_word.rs:117 | Every long choice starts with `-`. |
| Completion.OffersExtendToken | cli/src/cli/complete_word.rs:67-76 | Subcommand names, long names, a bare `-` and a one-letter short token only ever offer words that extend the token. |
| Completion.ArgValuesWhen | cli/src/cli/complete_word.rs:67-83 | Argument values are wanted only for a token that is not a flag and only when the command has no subcommands: for the flag waiting for a value, or else for the first positional argument not yet filled. |
| Completion.CompleteWord | cli/src/cli/complete_word.rs:50-85 | `complete_word` computes the completion: subcommands when the parsed command has any, else flag names for `-`, `--x` and `-x` tokens, else the value of the waiting flag or next argument, else nothing. |
| DocsModels.FromExamples | lib/src/docs/models.rs:132 | One converted example per example, in order. |
| DocsModels.ExampleRoundTrip | lib/src/docs/models.rs:260-270 | The conversion keeps every field and starts unrendered. |
| DocsModels.ArgRoundTrip | lib/src/docs/models.rs:272-294 | Converting an argument keeps every field of the spec's argument (the double-dash mode aside, which the docs model drops) and starts unrendered, with no rendered help. |
| DocsModels.FlagRoundTrip | lib/src/docs/models.rs:229-257 | Converting a flag keeps every field of the spec's flag, its value included, and starts unrendered, with no rendered help. |
| DocsModels.HelpLayoutSpec | lib/src/docs/models.rs:152-163 | The rendered help is present exactly when there is help text and its rendering is not empty; it is then that rendering, and it is never present for help containing a newline. |
| DocsModels.LaidArgKeeps | lib/src/docs/models.rs:149-166 | Laying out keeps every field of the argument and marks it unrendered with the given column width. |
| DocsModels.LaidFlagKeeps | lib/src/docs/models.rs:175-192 | Laying out keeps every field of the flag and marks it unrendered with the given column width. |
| DocsModels.LaidArgs | lib/src/docs/models.rs:146-168 | One laid-out argument per argument, in order. |
| DocsModels.LaidFlags | lib/src/docs/models.rs:172-194 | One laid-out flag per flag, in order. |
| DocsModels.ArgColumn | lib/src/docs/models.rs:145 | The usage-column width of a command's arguments: the widest argument usage, 0 without arguments. |
| DocsModels.FlagColumn | lib/src/docs/models.rs:171 | The usage-column width of a command's flags: the widest flag usage. |
| DocsModels.FromSubcommands | lib/src/docs/models.rs:199-203 | One converted subcommand per subcommand, in order. |
| DocsModels.FromSubcommandsAt | lib/src/docs/models.rs:199-203 | The converted subcommands are the conversions of the spec's, under the same keys. |
| DocsModels.ArgColumns | lib/src/docs/models.rs:144-168 | All arguments of a command share one usage-column width, the widest argument usage, and each keeps the spec's fields. |
| DocsModels.LaidArgsKeep | lib/src/docs/models.rs:146-168 | Every laid-out argument keeps the spec's fields, is unrendered and carries the shared column width. |
| DocsModels.LaidFlagsKeep | lib/src/docs/models.rs:172-194 | Every laid-out flag keeps the spec's fields, is unrendered and carries the shared column width. |
| DocsModels.FlagColumns | lib/src/docs/models.rs:170-194 | Flags likewise share the widest flag usage as their column width. |
| DocsModels.FromCommandFresh | lib/src/docs/models.rs:138-226 | The conversion keeps the spec's subcommand keys and leaves every node of the tree unrendered. |
| DocsModels.FromSubcommandsFresh | lib/src/docs/models.rs:199-203 | The converted subcommands keep their keys and every node below them is unrendered. |
| DocsModels.FromSpec | lib/src/docs/models.rs:115-135 | The converted spec and its whole command tree are unrendered, the root keeps the spec's subcommand keys, and there is one example per example. |
| DocsModels.AllSubcommandsSpec | lib/src/docs/models.rs:314-321 | The list is empty exactly when there are no subcommands, it starts with the first subcommand, and every subcommand, with all its own descendants, is in it. |
| DocsModels.DescendantsSpec | lib/src/docs/models.rs:316-319 | The descendants of a subcommand list: empty exactly when the list is, starting with the first subcommand, holding every subcommand and all of its own descendants. |
| DocsModels.CollectSubcommands | lib/src/docs/models.rs:314-321 | `all_subcommands` computes the pre-order list of all descendants, each subcommand followed by its own. |
| DocsModels.FillMd | lib/src/docs/models.rs:333-337 | The markdown fill of one help field: left as it is when present, else the long form (or the short one) with its code fences replaced. |
| DocsModels.ExamplesMd | lib/src/docs/models.rs:349-351 | Each example passed once, in order. |
| DocsModels.ArgsMd | lib/src/docs/models.rs:346-348 | Each argument passed once, in order. |
| DocsModels.FlagsMd | lib/src/docs/models.rs:343-345 | Each flag passed once, in order. |
| DocsModels.SubcommandsMd | lib/src/docs/models.rs:352-354 | Each subcommand passed once, keeping its key and order. |
| DocsModels.MdIdempotent | lib/src/docs/models.rs:298-395 | A second markdown pass changes nothing, on every kind of node. |
| DocsModels.CommandMdDone | lib/src/docs/models.rs:323-355 | On a fresh tree the markdown pass reaches every node: afterwards all of them are rendered. |
| DocsModels.SubcommandsMdDone | lib/src/docs/models.rs:352-354 | On fresh subcommands the pass leaves every one of them, and everything below, rendered. |
| DocsModels.CommandMdFills | lib/src/docs/models.rs:323-355 | On an unrendered node the help fields are filled only where absent, from the long form in preference to the short, and the subcommands keep their keys. |
| DocsModels.RenderFlagMd | lib/src/docs/models.rs:359-369 | `SpecFlag::render_md`: an already rendered flag is left alone; otherwise it is marked rendered and its markdown help filled from the long help, else the help, when absent. |
| DocsModels.RenderArgMd | lib/src/docs/models.rs:373-383 | `SpecArg::render_md`: an already rendered argument is left alone; otherwise it is marked rendered and its markdown help filled when absent. |
| DocsModels.RenderCommandMd | lib/src/docs/models.rs:323-355 | `SpecCommand::render_md` computes the markdown pass on the command: fields filled when absent, then each flag, argument, example and subcommand passed in turn. |
| DocsModels.RenderFlagsMd | lib/src/docs/models.rs:343-345 | The loop over the flags passes each flag. |
| DocsModels.RenderArgsMd | lib/src/docs/models.rs:346-348 | The loop over the arguments passes each argument. |
| DocsModels.RenderExamplesMd | lib/src/docs/models.rs:349-351 | The loop over the examples passes each example. |
| DocsModels.RenderSubcommandsMd | lib/src/docs/models.rs:352-354 | The loop over the subcommands passes each one, keys kept. |
| DocsModels.SubcommandsMdAt | lib/src/docs/models.rs:352-354 | Each subcommand entry after the pass is the pass of that subcommand under the same key. |
| Fig.CapitalizeAsWritten | cli/src/cli/generate/fig.rs:20-28 | the serialiser as written has no result (it panics) exactly for the empty description |
| Fig.Capitalize | cli/src/cli/generate/fig.rs:24-27 | the capitalised description has the same length and, for a non-empty one, agrees with the serialiser as written |
| Fig.EmptyDescriptionPanics | cli/src/cli/generate/fig.rs:24-26 | an empty description makes the serialiser as written fail, and an argument whose help is the empty text carries one |
| Fig.CapitalizeSpec | cli/src/cli/generate/fig.rs:24-27 | capitalising upper-cases the first character, keeps the rest and is idempotent |
| Fig.SimpleGenerator | cli/src/cli/generate/fig.rs:135-141 | the generator has the requested kind, no post-processing, and a placeholder of the generator name's length with no lower-case letter |
| Fig.GeneratorText | cli/src/cli/generate/fig.rs:143-165 | the call text starts with the generator name; an environment generator is the bare name and a completion generator appends its post-processing command in backquotes inside parentheses |
| Fig.TemplateSpec | cli/src/cli/generate/fig.rs:169-181 | a template exists exactly when the lower-cased name mentions `file`, `dir` or `path`; it is `folders` exactly when `dir` is mentioned and `file` is not, and `filepaths` otherwise |
| Fig.GeneratorSpec | cli/src/cli/generate/fig.rs:183-191 | an argument gets the environment-variable generator exactly when its lower-cased name mentions `env_var`, which makes the `env_vars` test redundant |
| Fig.ArgName | cli/src/cli/generate/fig.rs:200-206 | the Fig name holds no bracket and no upper-case letter and is no longer than the spec name |
| Fig.ArgNameIdempotent | cli/src/cli/generate/fig.rs:200-206 | a name without brackets or upper-case letters is kept as it is, so naming twice is naming once |
| Fig.ArgFromSpecSpec | cli/src/cli/generate/fig.rs:208-219 | the argument is optional exactly when it is not required, is debounced exactly when it has a generator, and suggests exactly the spec's choices |
| Fig.UpdateFromComplete | cli/src/cli/generate/fig.rs:221-231 | only the generator may change: an existing generator is kept; otherwise a completion generator is added that runs the completion's command (empty without one) under a placeholder naming the completion |
| Fig.FilledSpec | cli/src/cli/generate/fig.rs:407-420 | filling from the completions changes only the generator, gives one to every argument with a matching completion, leaves the others unchanged, and a second fill changes nothing |
| Fig.FillArgsComplete | cli/src/cli/generate/fig.rs:407-420 | every argument in the array is replaced in place by its filled version, and nothing else changes |
| Fig.OptionNames | cli/src/cli/generate/fig.rs:235-239 | one name per short and per long flag name, the shorts as `-c` first, then the longs as `--name` |
| Fig.OptionFromSpec | cli/src/cli/generate/fig.rs:254-261 | the option is repeatable exactly when the flag is variadic, and takes an argument exactly when the flag does, named by the Fig argument naming |
| Fig.VisibleSpec | cli/src/cli/generate/fig.rs:313-330 | filtering out hidden items and translating the rest yields exactly the translations of the visible items, never more than the input |
| Fig.CommandNames | cli/src/cli/generate/fig.rs:264-268 | the command's name first, followed by exactly its aliases |
| Fig.MountCalls | cli/src/cli/generate/fig.rs:332-340 | one call per mount, in order, each the mount's command in double quotes |
| Fig.CommandFromSpec | cli/src/cli/generate/fig.rs:309-346 | A command has a Fig command exactly when it is not hidden; the Fig command has at most as many subcommands, options and arguments as the command. |
| Fig.SubcommandsFromSpec | cli/src/cli/generate/fig.rs:313-318 | At most one Fig command per subcommand. |
| Fig.SubcommandsFromSpecSpec | cli/src/cli/generate/fig.rs:313-318 | exactly the subcommands that are not hidden are translated, and in order |
| Fig.CommandFromSpecSpec | cli/src/cli/generate/fig.rs:309-346 | a hidden command has no Fig command; a shown one is named by its name and aliases, and has a spec generator and caching turned off exactly when it has mounts |
| Fig.CommandChildren | cli/src/cli/generate/fig.rs:313-330 | a shown command keeps exactly its shown subcommands, flags and arguments, each translated |
| Fig.CommandsPostOrder | cli/src/cli/generate/fig.rs:292-295 | the command list of a tree ends with its root, and every command in it comes right after the commands below it |
| Fig.CommandsOfPostOrder | cli/src/cli/generate/fig.rs:293 | concatenating the walks of the subcommands keeps every command right after the commands below it |
| Fig.ArgGeneratorsSpec | cli/src/cli/generate/fig.rs:193-198 | the generators of a list of arguments are exactly the generators some argument has |
| Fig.OptionGeneratorsSpec | cli/src/cli/generate/fig.rs:241-248 | the generators of a list of options are exactly those of the options' arguments |
| Fig.GeneratorsOfArgs | cli/src/cli/generate/fig.rs:270-290 | the generators collected over the tree are exactly those of the arguments the tree hands out for completion |
| Fig.SubcommandGeneratorsOfArgs | cli/src/cli/generate/fig.rs:271-276 | the generators of a list of subcommands are exactly those of the arguments handed out below them |
| Fig.FillArgs | cli/src/cli/generate/fig.rs:407-420 | every argument of the list is filled from the completions, positions kept |
| Fig.FillOptions | cli/src/cli/generate/fig.rs:250-252 | filling the options of a command keeps their number |
| Fig.FillArgsAppend | cli/src/cli/generate/fig.rs:303-305 | filling a concatenation of argument lists is filling each part |
| Fig.FillOptionsArgs | cli/src/cli/generate/fig.rs:298 | the arguments of the filled options are the filled arguments of the options, in order |
| Fig.FillTreeArgs | cli/src/cli/generate/fig.rs:297-307 | updating the arguments the tree hands out is updating the tree: the arguments of the filled tree are the filled arguments, in order |
| Fig.FillSubcommandsArgs | cli/src/cli/generate/fig.rs:299 | the arguments below the filled subcommands are the filled arguments below the subcommands, in order |
| Layout.MaxUsageWidth | lib/src/docs/layout.rs:12-14 | `max_usage_width`: at least the visible width of every item and equal to one of them, or 0 when there are none. |
| Layout.WrapParagraphs | lib/src/docs/layout.rs:32-64 | Every line produced for any run of paragraphs is newline-free and fits the width, unless it is one word longer than the width. |
| Layout.Wrap | lib/src/docs/layout.rs:24-72 | `wrap_text`: width 0 leaves the text as it is; otherwise each `\n`-separated paragraph is wrapped on its own, and no line at all becomes one empty line. |
| Layout.PlaceKeeps | lib/src/docs/layout.rs:45-58 | Placing a word keeps the state good, and the lines joined by single spaces gain exactly that word: wrapping only turns separating spaces into line breaks. |
| Layout.FillKeeps | lib/src/docs/layout.rs:41-63 | Filling keeps every line good and gives back the words when the lines are joined by single spaces. |
| Layout.ParagraphWords | lib/src/docs/layout.rs:38-63 | A paragraph keeps its words and their order: joining its lines with single spaces gives its words joined with single spaces. |
| Layout.ParagraphLines | lib/src/docs/layout.rs:38-63 | Every line of a wrapped paragraph is newline-free and fits, unless it is a single word longer than the width. |
| Layout.WrapLines | lib/src/docs/layout.rs:24-72 | With a positive width every line of `wrap_text` is free of newlines and at most the width, unless it is one word longer than the width. |
| Layout.WrapOneParagraph | lib/src/docs/layout.rs:32 | A text without newlines is one paragraph. |
| Layout.WrapShort | lib/src/docs/layout.rs:24-72 | A text shorter than the width with single spaces between its words is one line. |
| Layout.FillNoBreak | lib/src/docs/layout.rs:45-49 | When the words, joined by single spaces, fit, no line is finished early. |
| Layout.WrapWords | lib/src/docs/layout.rs:38-63 | The word loop over one non-empty paragraph appends exactly the wrapped lines of that paragraph. |
| Layout.WrapText | lib/src/docs/layout.rs:24-72 | `wrap_text` computes the wrapped lines: the text itself for width 0, else each paragraph wrapped in turn, and one empty line when there would be none. |
| Layout.Available | lib/src/docs/layout.rs:93 | `terminal_width.saturating_sub(prefix)`: the width left after the prefix, or 0 when the prefix is wider than the terminal. |
| Layout.RenderHelp | lib/src/docs/layout.rs:76-119 | The help is marked multi-line only when it is non-empty, holds no newline and the column left is at least 10 wide. |
| Layout.RenderHelpSpec | lib/src/docs/layout.rs:76-119 | Help with a newline, or a column narrower than 10, falls back to the block layout; otherwise the wrapped lines are joined by a newline and the indentation of the help column, it is multi-line exactly when wrapping gave more than one line, and each line, placed after the prefix, fits the terminal unless it is one over-long word. |
| Layout.RenderHelpText | lib/src/docs/layout.rs:76-119 | `render_help_text` computes the rendered help and its multiline mark, building the result line by line with the continuation indent. |
| LegacyArgs.LegacyArgFromStr | src/parse/arg.rs:96-120 | The name read from a text is never longer than the text. |
| LegacyArgs.LegacyArgUsage | src/parse/arg.rs:23-33 | The usage opens with `<` for a required argument and `[` for an optional one, and ends with `...` when the argument is variadic. |
| LegacyArgs.LegacyFromStrFields | src/parse/arg.rs:96-120 | an argument read from text is variadic exactly when the text ends with `...`; every other field keeps its default |
| LegacyArgs.LegacyFromStrBracketed | src/parse/arg.rs:109-116 | `[x]` reads as an optional argument named `x` and `<x>` as a required one, neither variadic |
| LegacyArgs.LegacyFromStrBare | src/parse/arg.rs:98-118 | a text that is neither bracketed nor ends with `...` is a required argument of exactly that name |
| LegacyArgs.LegacyUsageShape | src/parse/arg.rs:23-33 | the usage is the name in `<>` when required and in `[]` when optional, followed by `...` exactly when variadic |
| LegacyArgs.LegacyUsageRoundTrip | src/parse/arg.rs:23-33 | reading an argument's usage back gives its name, requiredness and variadicity, for any name |
| LegacyArgs.LegacyFromStrDots | src/parse/arg.rs:103-106 | a trailing `...` only adds variadicity to what the rest of the text reads as |
| LegacyArgs.LegacyFromStrRoundTrip | src/parse/arg.rs:96-126 | printing what was read from a bracketed text, with or without `...`, gives the text back |
| LegacyCli.SubcommandsKeep | lib/src/cli.rs:55-65 | The chain of commands and the scope of the flags are kept. |
| LegacyCli.SubcommandsConsume | lib/src/cli.rs:55-65 | Only a leading run of subcommand words is consumed, one command per word, and the loop stops at the first word that names none. |
| LegacyCli.RootOk | lib/src/cli.rs:29-53 | The starting state has the root as its one command and the root's own flags in scope. |
| LegacyCli.EnterSubcommands | lib/src/cli.rs:55-65 | The subcommand loop computes the leading-run descent: each word naming a subcommand is consumed and entered, with the flags in scope narrowed to the globals plus the new command's own. |
| LegacyCli.PendingValue | lib/src/cli.rs:76-89 | The value for a waiting flag clears the wait and touches neither the remaining input nor the positionals. |
| LegacyCli.LongFlag | lib/src/cli.rs:97-118 | A word `--...` while flags are on: a value after `=` goes back to the front of the words; a known key either waits for a value, counts, or sets true (false for the negation word). |
| LegacyCli.ShortHitAsWritten | lib/src/cli.rs:132-141 | A short flag's own update as the library writes it: a variadic flag pushes `true`, even when it takes a value. |
| LegacyCli.ShortHit | lib/src/cli.rs:132-141 | The corrected update: a variadic flag that takes a value leaves its list to the value, as the long form does. |
| LegacyCli.ShortFlag | lib/src/cli.rs:121-144 | The short-flag checks: a word that is not `-c...` while flags are on passes untouched; a handled word never makes the words left weigh more than the rest of its group. |
| LegacyCli.Positional | lib/src/cli.rs:146-163 | A positional word leaves the input, flags and waiting flag alone; with no positional left it is the error `unexpected word`. |
| LegacyCli.Step | lib/src/cli.rs:74-163 | One word of the loop: the words left weigh less afterwards, so the loop ends. |
| LegacyCli.Run | lib/src/cli.rs:73-164 | The word loop runs to the end of the input or to the first error; when it goes on, no word is left. |
| LegacyCli.ParseChain | lib/src/cli.rs:28-174 | A successful legacy parse starts its chain of commands at the root and ends it at the command it reports. |
| LegacyCli.ParseWords | lib/src/cli.rs:28-174 | The body of the legacy `parse` computes the parse: the subcommand loop, then the word loop. |
| LegacyCli.PendingTakesAnyWord | lib/src/cli.rs:76-89 | A flag waiting for a value takes the next word whatever it is, even `--` or a flag; a non-variadic flag is set to it. |
| LegacyCli.PendingAppends | lib/src/cli.rs:78-84 | A waiting variadic flag appends the word to its list. |
| LegacyCli.DoubleDashOff | lib/src/cli.rs:91-94 | `--` turns flag parsing off and is dropped. |
| LegacyCli.FlagsOffPositional | lib/src/cli.rs:91-163 | With flags off every word but `--` goes to the positionals. |
| LegacyCli.LongEqualsForm | lib/src/cli.rs:97-104 | `--name=v` and `--name v` (next lemma) leave the same state for a flag that takes a value: the flag waits and `v` is the next word. |
| LegacyCli.LongSpaceForm | lib/src/cli.rs:102-104 | `--name` for a flag that takes a value waits for the next word. |
| LegacyCli.NegateSetsFalse | lib/src/cli.rs:112-115 | The negation word sets its flag to false, any other key to true. |
| LegacyCli.ShortGroupRequeue | lib/src/cli.rs:124-131 | A short flag without a value re-queues the rest of its group as a new short word, and nothing when the group is done. |
| LegacyCli.ShortValueRest | lib/src/cli.rs:124-131 | A short flag that takes a value waits for it and queues the rest of its word as that value. |
| LegacyCli.ShortEmptyValue | lib/src/cli.rs:124-131 | `-c` alone, for a non-variadic flag that takes a value, sets the flag to the empty string: the empty rest is queued and taken as the value. |
| LegacyCli.UnexpectedWord | lib/src/cli.rs:163 | A word with no positional left is the error "unexpected word". |
| LegacyCli.VariadicPositional | lib/src/cli.rs:146-156 | A variadic positional collects its words and moves on once it holds `var_max` of them. |
| LegacyCli.ShortVariadicPanics | lib/src/cli.rs:124-141 | As written, `-xv` for a variadic flag that takes a value first stores a list of booleans, so taking the value `v` panics. |
| LegacyCli.ShortVariadicCollects | lib/src/cli.rs:124-141 | Corrected, `-cv` and `--name v` agree for a variadic flag that takes a value: the value is appended to the flag's list. |
| LegacyCli.Env | lib/src/cli.rs:177-190 | Every variable the legacy parse exports is named `usage_…`. |
| LegacyCli.EnvSpec | lib/src/cli.rs:177-190 | The variables are exactly those named after a flag with a value, and each holds the value of the last flag of that name. |
| LegacyCli.EnvKeys | lib/src/cli.rs:177-190 | A variable is exported exactly when it is named `usage_<snake name>` after some flag with a value. |
| LegacyCli.EnvListText | lib/src/cli.rs:185 | A list of strings is exported joined with commas. |
| LegacyCli.ExportEnv | lib/src/cli.rs:177-190 | The loop of `as_env` computes the map of the flags' variables, later flags of the same name overriding earlier ones. |
| LegacyFlags.NameFromShortAndLong | src/parse/flag.rs:310-314 | no name exactly when there are no short and no long names; otherwise the first long name, or the first short name when there is no long one |
| LegacyFlags.LegacyFlagUsage | src/parse/flag.rs:80-99 | The usage ends with a space and the argument's usage when the flag takes one, and with `...` when it is variadic without an argument. |
| LegacyFlags.MarkDots | src/parse/flag.rs:168-173 | a `...` part makes the flag's argument variadic when there is one, and otherwise the flag itself; nothing else changes |
| LegacyFlags.WithArg | src/parse/flag.rs:174-177 | a bracketed part becomes the flag's argument, read by the legacy argument reader; nothing else changes |
| LegacyFlags.LegacyFlagFromStr | src/parse/flag.rs:149-191 | An accepted flag's usage is the usage of the flag read; a flag with a short name and no long name gets a name; a refused text reports the padded text. |
| LegacyFlags.ParseLegacyFlag | src/parse/flag.rs:149-191 | returns exactly what reading the text gives: the flag, or the error for the first refused part |
| LegacyFlags.PadDotsPads | src/parse/flag.rs:153 | after `...` is padded with spaces, every `...` in the text stands as a separate word |
| LegacyFlags.LegacyPartError | src/parse/flag.rs:159-183 | a single part is refused exactly when it is a short flag of other than one character or an unrecognised word, and the error names that part |
| LegacyFlags.LegacyPartsError | src/parse/flag.rs:154-185 | the parts fail exactly when one of them is refused, and the token reported is the first refused part |
| LegacyFlags.LegacyPartLongs | src/parse/flag.rs:157-158 | an accepted part adds a long name exactly when it starts with `--` |
| LegacyFlags.LegacyPartShorts | src/parse/flag.rs:159-167 | an accepted part adds a short name exactly when it is a one-character `-c` |
| LegacyFlags.LegacyPartName | src/parse/flag.rs:155-156 | a `name:` part renames the flag, and no other part does |
| LegacyFlags.LegacyPartsNames | src/parse/flag.rs:154-185 | accepted parts give the long and short names of the parts appended in order, and the last `name:` part names the flag |
| LegacyFlags.LegacyDotsPart | src/parse/flag.rs:168-173 | reading a `...` part always succeeds and marks the argument seen so far, or the flag, as variadic |
| LegacyFlags.LegacyFromStrSpec | src/parse/flag.rs:149-191 | a text is refused exactly when one of its words is; an accepted text gets the long and short names of its words in order, and its name from the last `name:` word or else from the first long or short name |
| LegacyFlagRoundTrip.UsageSplit | src/parse/flag.rs:80-99 | the usage is the name, short and long parts joined by spaces, then `...` when the flag is variadic, then a space and the argument's usage when it has one |
| LegacyFlagRoundTrip.PadUsage | src/parse/flag.rs:153 | padding the usage of a printable flag sets its dots apart and changes nothing else |
| LegacyFlagRoundTrip.WordsOfUsage | src/parse/flag.rs:153-154 | the words of a printable flag's padded usage are its head parts, then `...` when variadic, then the argument's parts |
| LegacyFlagRoundTrip.ParsePartsAppend | src/parse/flag.rs:154-185 | reading two runs of parts in turn is reading their concatenation, and a failure in the first run is the failure of the whole |
| LegacyFlagRoundTrip.ParseHead | src/parse/flag.rs:155-167 | the head parts of a printable flag read back as its explicit name, short names and long names |
| LegacyFlagRoundTrip.ArgPart | src/parse/flag.rs:174-177 | the bracketed part of a printable argument is read as an argument with the same name and requiredness |
| LegacyFlagRoundTrip.ParseArgWords | src/parse/flag.rs:168-177 | the argument's parts give the argument back, with its variadicity, and leave the names alone |
| LegacyFlagRoundTrip.ParseUsageWords | src/parse/flag.rs:154-185 | the parts of a printable flag's usage read back as its names, variadicity and argument |
| LegacyFlagRoundTrip.SameUsage | src/parse/flag.rs:80-99 | the usage depends only on the names, the variadicity and the argument's name, requiredness and variadicity |
| LegacyFlagRoundTrip.UsageReadsBack | src/parse/flag.rs:80-191 | reading a printable flag's usage gives back its name, names, variadicity and argument's name, requiredness and variadicity, so printing what was read gives the same usage |
| LegacySpec.LegacyMerge | src/parse/spec.rs:29-45 | A non-empty name or binary of the included spec wins, else the first spec's is kept; the first spec's flags and arguments come first, followed by exactly the included spec's. |
| LegacySpec.MergeLegacy | src/parse/spec.rs:29-45 | returns exactly the merged spec: a push per included flag and argument, an insertion per included subcommand |
| LegacySpec.LegacyMergeNames | src/parse/spec.rs:30-35 | a non-empty name or binary of the included spec wins, otherwise the first spec's stays; nothing but the names, flags, arguments and subcommands changes |
| LegacySpec.LegacyMergeAppends | src/parse/spec.rs:36-41 | flags and arguments are appended: the first spec's stay in front in order and the included spec's follow in order |
| LegacySpec.LegacyMergeSubcommands | src/parse/spec.rs:42-44 | a subcommand of the merged spec is the included spec's last one under that key, else the first spec's; the first spec's keys keep their places |
| LegacySpec.LegacyMergeIntoDefault | src/parse/spec.rs:29-45 | merging into an empty spec gives the included spec when its subcommand keys are unique |
| LegacySpec.LegacyMergeDefault | src/parse/spec.rs:29-45 | merging an empty spec changes nothing |
| LegacySpec.LegacyMergeAssocLists | src/parse/spec.rs:29-45 | the flags, arguments, name and binary of three merged specs are the same whichever pair is merged first |
| LegacySpec.SplitLegacyScript | src/parse/spec.rs:48-55 | The script part always starts with `#!`. |
| LegacySpec.SplitLegacyScriptSpec | src/parse/spec.rs:48-55 | the script part always starts with `#!`; when the text (after an optional usage shebang) holds a `\n#!`, the spec is the text before the first `\n#!`, trimmed, and the script is that `#!` onwards; a `#!` at the very start is not a split point; without a `\n#!`, the whole text trimmed is the spec and the script is `#!` alone |
| LegacySpec.LegacyFileDefaults | src/parse/spec.rs:20-25 | filling the defaults leaves the command untouched |
| LegacySpec.LegacyFileDefaultsSpec | src/parse/spec.rs:17-27 | with a non-empty file name the spec always gets a name and a binary; an explicit binary and name are kept, an empty binary becomes the file name and an empty name the binary; filling twice changes nothing |
| LegacySpec.ParseLegacyFile | src/parse/spec.rs:17-27 | a failure to read the spec text is returned; otherwise the spec read with its defaults filled and the script part |
| Lint.NamingSpec | cli/src/cli/lint.rs:307-316 | A naming warning is reported for exactly the long names that mix separators. |
| Lint.NamingFilter | cli/src/cli/lint.rs:307-316 | Naming warnings carry only their own code, so filtering by it keeps them all and filtering by any other code keeps none. |
| Lint.FlagFilter | cli/src/cli/lint.rs:275-317 | Filtering `lint_flag`'s issues by code: flag-no-option (an error) exactly when the flag has no short and no long name, missing-flag-help (an info) exactly when it is shown and has no help, deprecated-flag (an info) exactly when it is deprecated, and the naming warnings of its long names; no other code. |
| Lint.FlagCodes | cli/src/cli/lint.rs:275-317 | `lint_flag` reports only command-level codes. |
| Lint.NamingCodes | cli/src/cli/lint.rs:307-316 | Every naming issue of a flag is an inconsistent-naming warning. |
| Lint.ArgFilter | cli/src/cli/lint.rs:319-339 | Filtering `lint_arg`'s issues by code: missing-arg-help (an info) exactly when the argument is shown and has no help, inconsistent-naming (a warning) exactly when its name mixes `_` and `-`; no other code. |
| Lint.FlagsLinted | cli/src/cli/lint.rs:222-224 | Every flag's own issues appear among the command's flag issues. |
| Lint.ArgsLinted | cli/src/cli/lint.rs:242-244 | Every argument's own issues appear among the command's argument issues. |
| Lint.LongKeys | cli/src/cli/lint.rs:187-188 | The keys a flag registers for its long names, `--x`. |
| Lint.ShortKeys | cli/src/cli/lint.rs:203-204 | The keys a flag registers for its short names, `-c`. |
| Lint.DupFlagCodes | cli/src/cli/lint.rs:183-219 | Every duplicate-flag issue is an error with that code, located at the command. |
| Lint.SeenFirst | cli/src/cli/lint.rs:183-219 | The table holds, for each key, the flag of its first occurrence. |
| Lint.DupFlagCount | cli/src/cli/lint.rs:183-219 | Each repeated occurrence of a key is one error: the errors and the distinct keys together account for every key. |
| Lint.DupFlagNone | cli/src/cli/lint.rs:183-219 | No duplicate-flag error exactly when no key repeats. |
| Lint.DupFlagNamesFirst | cli/src/cli/lint.rs:189-198 | The error for a repeated key names the flag that defined it first. |
| Lint.CheckKey | cli/src/cli/lint.rs:188-201 | Registering one key: when it is already taken, one duplicate-flag error naming the flag that took it and the table unchanged; otherwise no error and the key recorded. |
| Lint.CheckLongs | cli/src/cli/lint.rs:187-202 | The inner loop over a flag's long names continues the duplicate scan over the keys `--x`, in order. |
| Lint.CheckShorts | cli/src/cli/lint.rs:203-218 | The inner loop over a flag's short names continues the duplicate scan over the keys `-c`, in order. |
| Lint.CheckDuplicateFlags | cli/src/cli/lint.rs:183-219 | The duplicate-flag loop appends exactly the duplicate-flag errors of the command's keys, long names before short names, flag by flag. |
| Lint.ArgNames | cli/src/cli/lint.rs:227 | The names seen: exactly the names of the arguments. |
| Lint.DupArgCodes | cli/src/cli/lint.rs:226-239 | Every duplicate-arg issue is an error with that code, located at the command. |
| Lint.DupArgCount | cli/src/cli/lint.rs:226-239 | The errors and the distinct names account for every argument. |
| Lint.DupArgNone | cli/src/cli/lint.rs:226-239 | No duplicate-arg error is reported exactly when the names are distinct. |
| Lint.CheckDuplicateArgs | cli/src/cli/lint.rs:226-239 | The duplicate-arg loop appends one error per argument whose name an earlier argument already has. |
| Lint.OrderSpec | cli/src/cli/lint.rs:246-262 | A warning is reported for an argument exactly when it is required, not variadic, and some earlier argument is optional. |
| Lint.CheckArgOrder | cli/src/cli/lint.rs:246-262 | The `found_optional` loop appends one warning per required, non-variadic argument after an optional one. |
| Lint.FlagsCodes | cli/src/cli/lint.rs:222-224 | The flag checks report only command-level codes. |
| Lint.ArgsCodes | cli/src/cli/lint.rs:242-244 | The argument checks report only command-level codes. |
| Lint.OrderCodes | cli/src/cli/lint.rs:246-262 | Every ordering issue is a required-after-optional warning. |
| Lint.CommandCodes | cli/src/cli/lint.rs:166-273 | A command walk reports only command-level codes, never the two spec-level ones. |
| Lint.SubcommandsCodes | cli/src/cli/lint.rs:270-272 | The subcommand walk reports only command-level codes. |
| Lint.SubcommandsLinted | cli/src/cli/lint.rs:265-272 | Every issue of a subcommand, linted under the extended path, is an issue of its parent. |
| Lint.CommandLinted | cli/src/cli/lint.rs:166-273 | A named command without help opens its issues with missing-cmd-help, and its subcommands are linted under `path + [name]`. |
| Lint.LintFlag | cli/src/cli/lint.rs:275-317 | `lint_flag` appends the flag's issues: no-option error, missing-help info, deprecated info, then one naming warning per mixed long name. |
| Lint.LintArg | cli/src/cli/lint.rs:319-339 | `lint_arg` appends the argument's issues: missing-help info, then the naming warning. |
| Lint.LintFlags | cli/src/cli/lint.rs:221-224 | The loop over the flags appends each flag's issues, in order. |
| Lint.LintArgs | cli/src/cli/lint.rs:241-244 | The loop over the arguments appends each argument's issues, in order. |
| Lint.LintSubcommands | cli/src/cli/lint.rs:264-272 | The recursion into the subcommands appends each subcommand's issues under the extended path, in order. |
| Lint.CheckHelp | cli/src/cli/lint.rs:173-181 | The help check appends missing-cmd-help exactly for a named command without help. |
| Lint.LintCommand | cli/src/cli/lint.rs:166-273 | `lint_command` appends the command's issues in the source's order: help, duplicate flags, flags, duplicate arguments, arguments, ordering, then subcommands. |
| Lint.SpecIssues | cli/src/cli/lint.rs:126-164 | A spec with neither name nor bin reports missing-name first; a default subcommand that is not a subcommand of the root is reported, naming the valid subcommands. |
| Lint.SpecChecks | cli/src/cli/lint.rs:126-164 | missing-name is reported once, as a warning, exactly when the spec has neither a name nor a bin; invalid-default-subcommand once, as an error, exactly when the default subcommand is not a subcommand of the root. |
| Lint.SpecFilter | cli/src/cli/lint.rs:126-164 | Filtering by a spec-level code sees only the spec-level checks. |
| Lint.CheckDefault | cli/src/cli/lint.rs:139-158 | The default-subcommand check appends invalid-default-subcommand exactly when the named default is not a subcommand. |
| Lint.LintSpec | cli/src/cli/lint.rs:126-164 | `lint_spec` yields the spec-level checks followed by the root command's issues. |
| Manpage.Roff.constructor | lib/src/docs/manpage/renderer.rs:36 | a new document holds no events |
| Manpage.Roff.Request | lib/src/docs/manpage/renderer.rs:40-43 | a control request is appended after everything written so far |
| Manpage.Roff.Line | lib/src/docs/manpage/renderer.rs:97 | a styled text line is appended after everything written so far |
| Manpage.ConcatMapAppend | lib/src/docs/manpage/renderer.rs:168-170 | the events of a list of items split at any point are the events of the two halves, in order |
| Manpage.ConcatMapFrom | lib/src/docs/manpage/renderer.rs:184-186 | every event written for a list of items comes from one of those items |
| Manpage.RenderIndented | lib/src/docs/manpage/renderer.rs:250-253 | writes `.RS`, the line and `.RE`, and nothing else |
| Manpage.ArgsPartsShape | lib/src/docs/manpage/renderer.rs:116-125 | There is one part per argument and one more per variadic argument, and none of them is the options marker: each starts with `<`, `[<` or `.`. |
| Manpage.SynopsisSpec | lib/src/docs/manpage/renderer.rs:107-137 | `[OPTIONS]` leads the synopsis exactly when the command has flags; with subcommands the synopsis ends with `<COMMAND>` when one is required and `[COMMAND]` otherwise; and the parts are counted by the flags, the arguments and the subcommands. |
| Manpage.BuildSynopsis | lib/src/docs/manpage/renderer.rs:107-137 | the synopsis is the parts (options marker, one per argument plus `...` for a variadic one, command marker) joined by single spaces |
| Manpage.FlagNamesSpec | lib/src/docs/manpage/renderer.rs:222-231 | one name per short and per long flag name: every short as `-c` first, then every long as `--name`, in declaration order |
| Manpage.FlagEventsSpec | lib/src/docs/manpage/renderer.rs:218-262 | A flag's entry opens with `.TP` and its names; the defaults line is there exactly when the flag has defaults, and an environment line exactly when it has an environment variable. |
| Manpage.FlagUsage | lib/src/docs/manpage/renderer.rs:222-231 | the joined names equal the flag's short names then long names, each with its dash prefix, separated by `, ` |
| Manpage.RenderFlagLine | lib/src/docs/manpage/renderer.rs:219-241 | writes `.TP` and the bold names, followed by the italic `<arg>` exactly when the flag takes an argument |
| Manpage.RenderFlag | lib/src/docs/manpage/renderer.rs:218-262 | appends exactly the flag's entry: names line, preferred help, defaults block and environment block |
| Manpage.ArgEventsSpec | lib/src/docs/manpage/renderer.rs:264-282 | An argument has an entry exactly when it has help, and the entry shows the long help in preference to the short one. |
| Manpage.RenderArg | lib/src/docs/manpage/renderer.rs:264-282 | appends exactly the argument's entry, which is empty for an argument without help |
| Manpage.RenderFlags | lib/src/docs/manpage/renderer.rs:168-170 | appends the entries of the flags one after the other, in order |
| Manpage.RenderArgs | lib/src/docs/manpage/renderer.rs:184-186 | appends the entries of the arguments one after the other, in order |
| Manpage.HasDocumentedArgs | lib/src/docs/manpage/renderer.rs:174-179 | true exactly when some argument has a short or a long help |
| Manpage.ExamplesShape | lib/src/docs/manpage/renderer.rs:199-203 | The first example is written without a leading break and every later one with it. |
| Manpage.ExamplesShowCode | lib/src/docs/manpage/renderer.rs:210-213 | Each example's code is shown. |
| Manpage.RenderExample | lib/src/docs/manpage/renderer.rs:200-213 | appends one example: a break unless it is the first, the bold header and the help when present, then the code between `.RS 4` and `.RE` |
| Manpage.RenderExamples | lib/src/docs/manpage/renderer.rs:197-214 | appends the examples in order, the first without a leading break and each later one after a `.PP` |
| Manpage.SplitOnFirst | lib/src/docs/manpage/renderer.rs:397 | the first piece of a split is a prefix of the text |
| Manpage.FirstLineSpec | lib/src/docs/manpage/renderer.rs:397 | The summary line holds no newline and begins the help text; a text of one line without a carriage return is its own first line. |
| Manpage.RenderSubcommandSummary | lib/src/docs/manpage/renderer.rs:390-408 | appends `.TP`, the bold name, the first line of the preferred help when there is one, and the indented alias list when there are aliases |
| Manpage.WalkShown | lib/src/docs/manpage/renderer.rs:284-301 | No command reached by the walk is hidden, and below a non-empty prefix every full name continues it after a space. |
| Manpage.WalkSubcommandsShown | lib/src/docs/manpage/renderer.rs:285-299 | no command reached from a list of subcommands is hidden, and below a non-empty prefix each full name continues the prefix after a space |
| Manpage.WalkOneShown | lib/src/docs/manpage/renderer.rs:286-299 | the walk under one subcommand reaches no hidden command and extends a non-empty prefix with a space |
| Manpage.WalkReachesChildren | lib/src/docs/manpage/renderer.rs:284-301 | Every subcommand that is not hidden is reached, under its full name. |
| Manpage.RenderAllSubcommands | lib/src/docs/manpage/renderer.rs:284-301 | appends the summary of every visible command in the tree, depth first, each under its space-joined full name |
| Manpage.DetailSpec | lib/src/docs/manpage/renderer.rs:303-388 | A detail section is written exactly for a subcommand with flags, a documented argument or examples; it opens with the upper-cased full name and holds exactly one section header. |
| Manpage.EntriesNoHeader | lib/src/docs/manpage/renderer.rs:344-381 | No entry of a detail section is a section header. |
| Manpage.RenderTitle | lib/src/docs/manpage/renderer.rs:346-347 | appends the bold title and a `.PP` break and nothing else |
| Manpage.RenderDetailEntries | lib/src/docs/manpage/renderer.rs:344-381 | appends the options, documented arguments and examples blocks, each with its title, exactly when present |
| Manpage.RenderDetail | lib/src/docs/manpage/renderer.rs:323-382 | appends exactly the detail section of one subcommand: nothing unless it has flags, a documented argument or examples |
| Manpage.RenderSubcommandDetails | lib/src/docs/manpage/renderer.rs:303-388 | appends, depth first over the visible commands, the detail section of each one that has flags, a documented argument or examples |
| Manpage.SplitAll | lib/src/docs/manpage/renderer.rs:144 | Rust's `split(pat)` on a text pattern: the pieces between the non-overlapping occurrences, left to right. |
| Manpage.FlagsNoHeader | lib/src/docs/manpage/renderer.rs:168-170 | no event of a list of flag entries is a section header |
| Manpage.ArgsNoHeader | lib/src/docs/manpage/renderer.rs:184-186 | no event of an argument list is a section header |
| Manpage.SummariesNoHeader | lib/src/docs/manpage/renderer.rs:284-301 | no event of the command summaries is a section header |
| Manpage.FlagNoHeader | lib/src/docs/manpage/renderer.rs:218-262 | a flag's entry holds no section header |
| Manpage.ArgNoHeader | lib/src/docs/manpage/renderer.rs:264-282 | an argument's entry holds no section header |
| Manpage.SummaryNoHeader | lib/src/docs/manpage/renderer.rs:390-408 | a command summary holds no section header |
| Manpage.ExamplesNoHeader | lib/src/docs/manpage/renderer.rs:199-214 | an examples list holds no section header |
| Manpage.OptionsHeaders | lib/src/docs/manpage/renderer.rs:166-171 | Each section of a command holds its own header and no other. |
| Manpage.ArgumentsHeaders | lib/src/docs/manpage/renderer.rs:173-187 | the arguments part holds at most the `ARGUMENTS` header, and that one only at the root |
| Manpage.CommandsHeaders | lib/src/docs/manpage/renderer.rs:189-194 | the commands part holds the `COMMANDS` header exactly when the command has a subcommand, and no other header |
| Manpage.ExamplesHeaders | lib/src/docs/manpage/renderer.rs:196-215 | the examples part holds the `EXAMPLES` header exactly when there are examples, and no other header |
| Manpage.CommandSections | lib/src/docs/manpage/renderer.rs:164-216 | Below the root the arguments are listed without a header; at the root the arguments header is there exactly when an argument has help, and the commands header exactly when the command has subcommands. |
| Manpage.HelpParagraphsSpec | lib/src/docs/manpage/renderer.rs:142-161 | Each paragraph of a text, trimmed, is on the page in order, and the paragraphs joined back with the blank-line separator give the text. |
| Manpage.ParagraphsAt | lib/src/docs/manpage/renderer.rs:144-147 | each paragraph, trimmed, is the text at an even position and a `.PP` break follows it |
| Manpage.PageSpec | lib/src/docs/manpage/renderer.rs:35-88 | The page opens with the title header (upper-cased name and section) and the name line, which falls back to a stock text without an about text. |
| Manpage.ManpageRenderer.constructor | lib/src/docs/manpage/renderer.rs:15-20 | the renderer holds the documentation view of the spec and manual section 1 |
| Manpage.ManpageRenderer.WithSection | lib/src/docs/manpage/renderer.rs:29-32 | sets the section number and changes nothing else |
| Manpage.ManpageRenderer.RenderName | lib/src/docs/manpage/renderer.rs:90-98 | appends the NAME header and `name - about`, with a stock text when there is no about text |
| Manpage.ManpageRenderer.RenderSynopsis | lib/src/docs/manpage/renderer.rs:100-105 | appends the SYNOPSIS header and the binary name followed by the root command's synopsis |
| Manpage.ManpageRenderer.RenderParagraphs | lib/src/docs/manpage/renderer.rs:142-161 | appends each paragraph of the text, trimmed and followed by a break, and nothing when there is no text |
| Manpage.ManpageRenderer.RenderDescription | lib/src/docs/manpage/renderer.rs:139-162 | appends the DESCRIPTION header, then the paragraphs of the spec's long or short about, then those of the root command's long or short help |
| Manpage.ManpageRenderer.RenderArgumentsSection | lib/src/docs/manpage/renderer.rs:173-187 | below the root appends every argument entry without a header; at the root appends the ARGUMENTS header and the entries only when some argument has help |
| Manpage.ManpageRenderer.RenderCommandsSection | lib/src/docs/manpage/renderer.rs:189-194 | when the command has any subcommand, appends the COMMANDS header and the summaries of the whole tree from the spec's root; otherwise nothing |
| Manpage.ManpageRenderer.RenderCommand | lib/src/docs/manpage/renderer.rs:164-216 | appends the options, arguments, commands and examples parts of the command in that order; the command list always walks the tree from the spec's root |
| Manpage.ManpageRenderer.RenderTail | lib/src/docs/manpage/renderer.rs:60-85 | appends the EXAMPLES section exactly when the spec has examples, then the AUTHOR section exactly when there is an author |
| Manpage.ManpageRenderer.Render | lib/src/docs/manpage/renderer.rs:35-88 | the page is the title header with the upper-cased name and section, NAME, SYNOPSIS, DESCRIPTION, the root command's sections, every subcommand's detail section, the spec's examples and the author, in that order |
| MarkdownGen.GatherOne | cli/src/cli/generate/markdown.rs:236-245 | yields exactly the commands gathered under one command: itself first when shown and named, then everything below it |
| MarkdownGen.GatherSubcommands | cli/src/cli/generate/markdown.rs:234-247 | yields exactly the commands gathered from the list, each pushed before the commands gathered below it |
| MarkdownGen.GatheredShown | cli/src/cli/generate/markdown.rs:237-241 | no gathered command is hidden or has an empty name |
| MarkdownGen.GatheredAllShown | cli/src/cli/generate/markdown.rs:234-247 | no command gathered from a list is hidden or unnamed |
| MarkdownGen.GatheredPreOrder | cli/src/cli/generate/markdown.rs:240-244 | the gathering is pre-order: a shown, named command comes first and every gathered command is followed at once by everything gathered below it |
| MarkdownGen.GatheredAllPreOrder | cli/src/cli/generate/markdown.rs:236-245 | gathering a list keeps every command directly ahead of the commands gathered below it |
| MarkdownGen.SplitLast | cli/src/cli/generate/markdown.rs:303 | splitting at the last occurrence of the pattern gives two pieces around it that rebuild the text, and no occurrence starts further right; none means the pattern does not occur |
| MarkdownGen.CapturedSpec | cli/src/cli/generate/markdown.rs:303 | a capture lies between the directive opener and closer within the line, so the line holds the opener |
| MarkdownGen.AsUsize | cli/src/cli/generate/markdown.rs:349 | the cast lands below `usize::MAX + 1` and keeps every value already in range |
| MarkdownGen.NodeDirectiveSpec | cli/src/cli/generate/markdown.rs:332-357 | unknown names are errors naming the directive; `commands` defaults to two levels inline and a depth of -1 wraps round to the largest `usize`; every directive keeps its line as its token |
| MarkdownGen.NodesDirective | cli/src/cli/generate/markdown.rs:305-308 | a directive is read only from a line holding exactly one node, and from that node |
| MarkdownGen.NodeCountAsWritten | cli/src/cli/generate/markdown.rs:305-308 | as written, a directive line with two nodes is accepted (the second ignored) and one with no node fails on the missing first node |
| MarkdownGen.NodeCountGuard | cli/src/cli/generate/markdown.rs:305 | below `usize::MAX - 1` nodes the guard as written never fires, while the corrected check accepts only one node |
| MarkdownGen.Classify | cli/src/cli/generate/markdown.rs:298-361 | Only a line holding a directive capture (and not the end marker) can fail to classify. |
| MarkdownGen.ClassifySpec | cli/src/cli/generate/markdown.rs:298-361 | the end marker alone is an end token; a line with a directive capture becomes that directive or an error; every other line is plain text kept as it is |
| MarkdownGen.ParseLines | cli/src/cli/generate/markdown.rs:296-364 | A successful parse gives one directive per line, and every end-marker line is an end token. |
| MarkdownGen.ParseLinesErr | cli/src/cli/generate/markdown.rs:296-364 | a failing line in a prefix makes the whole parse fail with that error |
| MarkdownGen.ParseLinesSpec | cli/src/cli/generate/markdown.rs:296-364 | a successful parse gives one directive per line, each that line's classification; a failure is the failure of some line |
| MarkdownGen.ParseReadmeDirectives | cli/src/cli/generate/markdown.rs:296-364 | returns exactly the parse of the lines: one directive per line in order, or the first line's error |
| MarkdownGen.CommandTexts | cli/src/cli/generate/markdown.rs:499-503 | one rendered text per command, in order, each the command template applied to that command |
| MarkdownGen.Run | cli/src/cli/generate/markdown.rs:427-538 | Rendering can fail only with a panic, and a successful run has no commands directive asking for one level inline. |
| MarkdownGen.RunPlain | cli/src/cli/generate/markdown.rs:427-435 | after a run, the plain flag is set exactly when no directive other than plain text or a load has come since the last end marker |
| MarkdownGen.PlainCopied | cli/src/cli/generate/markdown.rs:533-536 | a plain line is copied exactly when the last toggling directive before it is an end marker, or there is none |
| MarkdownGen.ContentFramed | cli/src/cli/generate/markdown.rs:440-530 | each content directive writes its own line, then the generated text, then the end marker |
| MarkdownGen.RunFails | cli/src/cli/generate/markdown.rs:506-512 | rendering fails exactly when some commands directive asks for one level inline |
| MarkdownGen.FinishSpec | cli/src/cli/generate/markdown.rs:540-543 | the output ends with exactly one line break, after text that neither begins nor ends with white space |
| MarkdownGen.Emit | cli/src/cli/generate/markdown.rs:436-538 | returns exactly the lines the directive adds, or the failure of an inline depth of one |
| MarkdownGen.ArgDocs | cli/src/cli/generate/markdown.rs:450-468 | returns exactly the lines of the shown global arguments: a heading and the long help, or a bullet with the short help, or a bare bullet |
| MarkdownGen.FlagDocs | cli/src/cli/generate/markdown.rs:469-491 | returns exactly the lines of the shown global flags, each under its usage, in the same three forms |
| MarkdownGen.RunStep | cli/src/cli/generate/markdown.rs:428-538 | one more directive switches the plain flag and then adds its lines, or fails |
| MarkdownGen.RunErr | cli/src/cli/generate/markdown.rs:428-538 | a failure in a prefix of the directives is the failure of the whole run |
| MarkdownGen.MarkdownBuilder.constructor | cli/src/cli/generate/markdown.rs:385-394 | the builder holds the directives, no commands and no spec |
| MarkdownGen.MarkdownBuilder.LoadSpecs | cli/src/cli/generate/markdown.rs:396-414 | succeeds exactly when some load directive reads a spec, keeping the last one read and its gathered commands; a failed read is returned; without any load it fails with the "spec must be loaded" error |
| MarkdownGen.MarkdownBuilder.Render | cli/src/cli/generate/markdown.rs:416-544 | returns exactly the rendered document: the directives in order under the plain flag, the lines joined, trimmed and closed by one line break, or the first failure |
| MarkdownGen.Shown | cli/src/cli/generate/markdown.rs:405-408 | The filter of the gathered commands returns no more commands than it is given. Which commands it keeps, those not hidden, is stated by `MarkdownGen.ShownMembers`. |
| MarkdownGen.ShownMembers | cli/src/cli/generate/markdown.rs:407 | a command is kept exactly when it is in the list and not hidden |
| MarkdownGen.ShownGathered | cli/src/cli/generate/markdown.rs:405-408 | all gathered commands are shown, so the filter after gathering keeps every one |
| MarkdownGen.LoadedStep | cli/src/cli/generate/markdown.rs:398-411 | one more directive: a load reads its file and replaces the spec, anything else keeps it |
| MarkdownGen.ShownOfGathered | cli/src/cli/generate/markdown.rs:405-408 | filtering the gathered commands of a spec gives back the gathered commands unchanged |
| MarkdownGen.LoadedErr | cli/src/cli/generate/markdown.rs:404 | a failed read in a prefix of the directives is the failure of the whole load |
| OlderSpec.ExtractAsWritten | lib/src/parse/spec.rs:150-163 | When the reading as written does not panic, it gives at most one spec line per line. |
| OlderSpec.CommentText | lib/src/parse/spec.rs:159 | a line inside the block loses a leading `# `, or else a leading `#`, and is kept whole otherwise |
| OlderSpec.Extract | lib/src/parse/spec.rs:150-163 | The corrected reading gives at most one spec line per line, each the comment text of some line. |
| OlderSpec.ExtractUsageFromComments | lib/src/parse/spec.rs:150-163 | returns exactly the as-written reading: the joined inside lines, or nothing where the code panics |
| OlderSpec.ExtractAsWrittenSpec | lib/src/parse/spec.rs:153-161 | the code panics exactly when some line inside a block does not start with `# `; otherwise it reads the same lines as the corrected reading |
| OlderSpec.CommentTexts | lib/src/parse/spec.rs:159 | the comment text of every line, in order |
| OlderSpec.ExtractAppend | lib/src/parse/spec.rs:153-161 | reading splits at any point, the inside flag carried across |
| OlderSpec.ExtractPlain | lib/src/parse/spec.rs:153-161 | outside a block, lines without the marker give nothing; inside one, their comment texts; the flag does not change |
| OlderSpec.MarkerLine | lib/src/parse/spec.rs:154-157 | a marker line gives nothing and toggles the inside flag |
| OlderSpec.ExtractBlock | lib/src/parse/spec.rs:150-163 | the lines between two markers are what is read, comment prefixes dropped, whatever marker-free lines stand before and after |
| OlderSpec.BareHashPanics | lib/src/parse/spec.rs:159 | a block holding a lone `#` line makes the code as written panic, where the corrected reading gives an empty spec line |
| OlderSpec.CommentTextsRoundTrip | lib/src/parse/spec.rs:159 | lines written as `# ` comments read back as themselves |
| OlderSpec.BlockRoundTrip | lib/src/parse/spec.rs:150-163 | spec lines written as `# ` comments between two markers read back as they were written |
| OlderSpec.SplitOlderScript | lib/src/parse/spec.rs:133-148 | A text with the marker is kept whole as the script; without it, a text that is not a script with `#USAGE` comments splits as the current library does, and the script always starts with `#!`. |
| OlderSpec.OlderPlace | lib/src/parse/spec.rs:165-178 | placing a command sets its full path and keeps its name; an empty usage is filled from the command as it stands, a set one is kept |
| OlderSpec.OlderPlaceAll | lib/src/parse/spec.rs:170-177 | placing a list of subcommands keeps their number, keys and names |
| OlderSpec.OlderPlacePaths | lib/src/parse/spec.rs:165-178 | after placing, every descendant's path is its path from the root |
| OlderSpec.OlderPlaceAllPaths | lib/src/parse/spec.rs:170-177 | after placing a list, every descendant's path is its path from the root |
| OlderSpec.OlderPlaceAgrees | lib/src/parse/spec.rs:165-178 | with every usage already set, the older placement agrees with the current library's |
| OlderSpec.OlderPlaceAllAgrees | lib/src/parse/spec.rs:170-177 | with every usage already set, placing a list agrees with the current library's |
| OlderSpec.OlderMerge | lib/src/parse/spec.rs:107-130 | merging changes at most the name, binary, usage, about texts, config, completions and command |
| OlderSpec.MergeOlderInto | lib/src/parse/spec.rs:107-130 | returns exactly the older merge of the two specs |
| OlderSpec.OlderMergeProvided | lib/src/parse/spec.rs:107-130 | a non-empty name, binary or usage of the included spec wins, and so do its about texts; a completion is the included spec's when it has one by that name |
| OlderSpec.OlderMergeAgrees | lib/src/parse/spec.rs:107-130 | when the included spec gives none of the fields the older merge ignores, the older merge is the current library's merge |
| OlderSpec.OlderMergeBlank | lib/src/parse/spec.rs:107-130 | merging a spec that gives nothing leaves everything but the command, which is left to the command merge |
| OlderSpec.ParseOlderFile | lib/src/parse/spec.rs:33-44 | a failure to read the spec text is returned; otherwise the spec with its defaults filled and the script part |
| SpecArgs.StripEllipsis | lib/src/spec/arg.rs:168-175 | Strips one trailing `...` or `…`; says whether one was there. |
| SpecArgs.ArgFromStr | lib/src/spec/arg.rs:161-193 | An argument read from text is variadic exactly when the text ends with `...` or `…`, and its name is never longer than the text. |
| SpecArgs.ArgUsage | lib/src/spec/arg.rs:95-110 | The usage opens with `<` for a required argument and `[` for an optional one, and ends with `…` exactly when the argument is variadic. |
| SpecArgs.FromStrDefaults | lib/src/spec/arg.rs:161-167 | Everything read from text starts from the defaults, apart from what the text sets. |
| SpecArgs.FromStrOptional | lib/src/spec/arg.rs:179-182 | `[x]` is an optional argument named `x`. |
| SpecArgs.FromStrRequired | lib/src/spec/arg.rs:183-185 | `<x>` is a required argument named `x`. |
| SpecArgs.FromStrBare | lib/src/spec/arg.rs:176-187 | A bare name is a required argument with that name. |
| SpecArgs.FromStrDoubleDash | lib/src/spec/arg.rs:188-191 | After the brackets are gone, a leading `-- ` is removed and marks the argument as coming after `--`. |
| SpecArgs.UsageShape | lib/src/spec/arg.rs:95-110 | The usage wraps the name in `<>` or `[]` by requiredness, puts `-- ` before it when the argument comes after `--`, and ends in `…` exactly when the argument is variadic. |
| SpecArgs.StripUsage | lib/src/spec/arg.rs:168-175 | Stripping the ellipsis from a usage leaves its bracketed part and tells whether the argument is variadic. |
| SpecArgs.UsageRoundTrip | lib/src/spec/arg.rs:95-193 | Reading an argument's usage back gives its name, requiredness, variadicity and double-dash mode, for the modes the grammar can express, and for names that do not themselves start with `-- ` unless the mode adds one. |
| SpecArgs.FinishParse | lib/src/spec/arg.rs:76-90 | What `SpecArg::parse` does once the properties and children are read: an argument with a default is not required, the usage is stored, and the first line of the help is kept. |
| SpecCommands.VisibleFlags | lib/src/spec/cmd.rs:230 | The flags that are not hidden, in order. |
| SpecCommands.VisibleArgs | lib/src/spec/cmd.rs:231 | The arguments that are not hidden, in order. |
| SpecCommands.VisibleFlagsTwice | lib/src/spec/cmd.rs:230 | Filtering twice is filtering once. |
| SpecCommands.VisibleArgsTwice | lib/src/spec/cmd.rs:231 | Filtering out the hidden arguments twice is filtering once. |
| SpecCommands.FlagInlines | lib/src/spec/cmd.rs:234-243 | One inline text per visible flag, in order: its usage in `<>` when required, in `[]` otherwise. |
| SpecCommands.ArgInlines | lib/src/spec/cmd.rs:253 | One inline text per visible argument, in order: its usage. |
| SpecCommands.WithArgsKeeps | lib/src/spec/cmd.rs:251-260 | The argument step keeps what the usage already shows. |
| SpecCommands.FinishKeeps | lib/src/spec/cmd.rs:265-268 | The last step, the subcommand placeholder and the final trim, keeps what the usage already shows. |
| SpecCommands.InlineKeeps | lib/src/spec/cmd.rs:244 | Writing out parts after a text and trimming keeps every part. |
| SpecCommands.UsageTrimmed | lib/src/spec/cmd.rs:228-269 | The usage neither starts nor ends with a space. |
| SpecCommands.UsageIgnoresHidden | lib/src/spec/cmd.rs:230-231 | Hidden flags and arguments play no part in the usage. |
| SpecCommands.UsageSubcommand | lib/src/spec/cmd.rs:265-267 | A command with subcommands ends its usage with `<SUBCOMMAND>`. |
| SpecCommands.SummaryOccurs | lib/src/spec/cmd.rs:245-258 | A summary written after a space occurs right after that space. |
| SpecCommands.UsageManyFlags | lib/src/spec/cmd.rs:245-249 | With more than two visible flags the usage shows `<FLAGS>` when one of them is required and `[FLAGS]` otherwise. |
| SpecCommands.UsageManyArgs | lib/src/spec/cmd.rs:255-259 | With more than two visible arguments the usage shows `<ARGS>…` when one of them is required and `[ARGS]…` otherwise. |
| SpecCommands.UsageInlineFlag | lib/src/spec/cmd.rs:233-244 | With one or two visible flags, each is written out in brackets. |
| SpecCommands.ArgUsageSolid | lib/src/spec/arg.rs:95-110 | An argument's usage starts with a bracket and ends with a bracket or an ellipsis. |
| SpecCommands.UsageInlineArg | lib/src/spec/cmd.rs:252-254 | With one or two visible arguments, each one's usage is written out. |
| SpecCommands.UsageOfEmpty | lib/src/spec/cmd.rs:228-269 | A command with nothing to show is just its full name. |
| SpecCommands.LastGet | lib/src/spec/cmd.rs:321-323 | The value of the last entry with a key. |
| SpecCommands.InsertAllGet | lib/src/spec/cmd.rs:321-323 | After inserting many entries, a key holds the value of its last inserted entry, or its old value when none was inserted. |
| SpecCommands.LastGetUnique | lib/src/spec/cmd.rs:321-323 | With unique keys, the last entry with a key is the only one. |
| SpecCommands.InsertAllKeeps | lib/src/spec/cmd.rs:321-323 | Inserting keeps the existing entries' keys where they were and adds at least one entry for a non-empty insertion. |
| SpecCommands.InsertAllUnique | lib/src/spec/cmd.rs:321-323 | Inserting keeps the keys unique. |
| SpecCommands.KeepOption | lib/src/spec/cmd.rs:274-276 | One `if other.x.is_some() { self.x = other.x }` step of `merge`. |
| SpecCommands.KeepList | lib/src/spec/cmd.rs:301-303 | One `if !other.x.is_empty() { self.x = other.x }` step of `merge`. |
| SpecCommands.InsertEach | lib/src/spec/cmd.rs:321-323 | The insertion loop of `merge` inserts the other command's entries one at a time, in order: a known key is overwritten in place, a new key appended. |
| SpecCommands.Merge | lib/src/spec/cmd.rs:270-327 | `SpecCommand::merge`: every field the other command provides replaces this one's, `hide` and `subcommand_required` are always taken from it, subcommands and completions are inserted. |
| SpecCommands.MergeBlank | lib/src/spec/cmd.rs:270-327 | Merging a command that provides nothing changes nothing. |
| SpecCommands.MergeSubcommands | lib/src/spec/cmd.rs:321-323 | What the merged command's subcommand table maps a name to: the other command's subcommand when it has one by that name, the first command's otherwise. Subcommands already present keep their place. |
| SpecCommands.MergeCompletes | lib/src/spec/cmd.rs:324-326 | The same for completions. |
| SpecCommands.MergeEmpty | lib/src/spec/cmd.rs:222-227 | The merge is empty exactly when both commands are. |
| SpecCommands.AllOfChildren | lib/src/spec/cmd.rs:329-336 | Every subcommand of an entry list is listed, with its descendants. |
| SpecCommands.AllTransitive | lib/src/spec/cmd.rs:329-336 | A descendant's descendants are descendants. |
| SpecCommands.AllOfTransitive | lib/src/spec/cmd.rs:329-336 | A descendant of a listed subcommand is listed as well. |
| SpecCommands.AllChildren | lib/src/spec/cmd.rs:329-336 | Each direct subcommand is listed, followed by its own descendants. |
| SpecCommands.AddNames | lib/src/spec/cmd.rs:343-348 | Recording words for a target: every word of `ws` now stands for `target`, every other word keeps its old entry, and no other word is added. |
| SpecCommands.LookupDomain | lib/src/spec/cmd.rs:339-351 | A word is in the table exactly when some subcommand answers to it. |
| SpecCommands.LookupLast | lib/src/spec/cmd.rs:339-351 | A word in the table stands for the key of the last subcommand that answers to it. |
| SpecCommands.LastNamer | lib/src/spec/cmd.rs:339-351 | Some subcommand answering to a word is the last one that does. |
| SpecCommands.FindFound | lib/src/spec/cmd.rs:338-354 | A subcommand is found exactly for the words some subcommand answers to. |
| SpecCommands.FindByWord | lib/src/spec/cmd.rs:338-354 | A word finds the last subcommand that answers to it by its key or by one of its aliases. |
| SpecFile.ExtractUsage | lib/src/spec/mod.rs:214-230 | A text without a `#USAGE`/`//USAGE` line gives the empty spec. |
| SpecFile.ExtractUsageFromComments | lib/src/spec/mod.rs:214-230 | `extract_usage_from_comments` computes the run of `#USAGE`/`//USAGE` lines, markers cut and trimmed, joined by line feeds; reading stops at the first other line after the run. |
| SpecFile.CutMarker | lib/src/spec/mod.rs:220-223 | cutting a usage line's marker by its length and trimming gives the line's usage text |
| SpecFile.Texts | lib/src/spec/mod.rs:223 | The texts of `ls`, line by line. |
| SpecFile.RunAtFront | lib/src/spec/mod.rs:224-227 | Once a usage line has been read, what is read is the run of usage lines at the front, up to the first other line. |
| SpecFile.CollectRun | lib/src/spec/mod.rs:214-230 | The spec read from comments is the first run of usage lines, each without its marker and trimmed; lines before the run are skipped and the first line after it ends the reading. |
| SpecFile.SkipLine | lib/src/spec/mod.rs:217-227 | A line before the run moves the run one line on. |
| SpecFile.DropComments | lib/src/spec/mod.rs:204-209 | The lines that do not start with `#`, in order. |
| SpecFile.SchemaAndBody | lib/src/spec/mod.rs:203 | `split_once("\n#!")` with the whole text as spec when there is no script: the spec, and the script without its leading `#!`. |
| SpecFile.SplitScript | lib/src/spec/mod.rs:195-211 | The script part always starts with `#!`. |
| SpecFile.SplitEmbedded | lib/src/spec/mod.rs:195-201 | A script with a shebang and usage comments is its own body and its spec is read from the comments. |
| SpecFile.SplitPlain | lib/src/spec/mod.rs:202-211 | without comment usage, the script is everything from the `#!` of the first `\n#!` after the optional usage shebang (a `#!` at the very start is not a split point), and `#!` alone when there is none |
| SpecFile.Place | lib/src/spec/mod.rs:232-245 | `set_subcommand_ancestors` on a command whose path becomes `full`: each subcommand's path is `ancestors` and its own name, its own subcommands get paths under it, and the usage is computed, last, only where it is empty. |
| SpecFile.PlaceAll | lib/src/spec/mod.rs:234-241 | Placing the subcommands keeps their number, order and keys. |
| SpecFile.PlacePaths | lib/src/spec/mod.rs:232-245 | After placing, every descendant's path is its path from the root. |
| SpecFile.PlaceAllPaths | lib/src/spec/mod.rs:234-241 | After placing, every subcommand's path is the ancestors and its own name, and so on down the tree. |
| SpecFile.PlaceUsage | lib/src/spec/mod.rs:242-244 | A usage that was set is kept; an empty one is computed from the placed command. |
| SpecFile.PlaceTwice | lib/src/spec/mod.rs:232-245 | Placing twice is placing once. |
| SpecFile.PlaceAllTwice | lib/src/spec/mod.rs:234-241 | Placing the subcommands twice is placing them once. |
| SpecFile.MergeSpec | lib/src/spec/mod.rs:152-190 | The included spec's name, bin, usage, about, version and author win when it has them, else the first spec's stay; an empty config or completion list of the included spec leaves the first spec's untouched. |
| SpecFile.MergeSpecInto | lib/src/spec/mod.rs:152-190 | `Spec::merge`: each field the included spec provides replaces this one's, the configs are merged, completions inserted, and the root commands merged. |
| SpecFile.MergeSpecBlank | lib/src/spec/mod.rs:152-190 | Merging a spec that provides nothing changes nothing. |
| SpecFile.MergeSpecCompletes | lib/src/spec/mod.rs:183-185 | The merged completions: the included spec's entry when it has one by that name, the first spec's otherwise. |
| SpecFile.ReadNames | lib/src/spec/mod.rs:93-101 | The name/bin part of `Spec::parse`: a `name` node sets the name, a `bin` node the binary and an empty name; the root command is named by the binary, else the name. |
| SpecFile.NameFromBin | lib/src/spec/mod.rs:96-101 | Without a `name` node the name is the first non-empty binary. |
| SpecFile.NameFromLastName | lib/src/spec/mod.rs:95-101 | A non-empty `name` node that no other `name` node follows gives the name; the binary is the value of the last `bin` node. |
| SpecFile.BinFromLastBin | lib/src/spec/mod.rs:96-97 | The binary is the value of the last `bin` node, or empty. |
| SpecFile.FileDefaults | lib/src/spec/mod.rs:52-57 | `parse_file`: an empty binary becomes the file's name, then an empty name becomes the binary. |
| SpecFile.FileDefaultsNamed | lib/src/spec/mod.rs:48-59 | A spec read from a file with a name has a name and a binary, so it is not empty; reading the defaults again changes nothing. |
| SpecFile.FileDefaultsKeep | lib/src/spec/mod.rs:52-57 | An explicit name and binary are kept. |
| SpecFlags.FlagUsage | lib/src/spec/flag.rs:147-167 | The usage ends with a space and the argument's usage when the flag takes one, and with `…` when it is variadic without an argument. |
| SpecFlags.FlagFromStr | lib/src/spec/flag.rs:248-288 | An accepted flag's usage is the usage of the flag read; a flag with a short name and no long name gets a name; a refused text reports the normalised text. |
| SpecFlags.ParseFlag | lib/src/spec/flag.rs:248-288 | `FromStr for SpecFlag` is the part-by-part loop over the normalised text: it fails with the first refused part, else names the flag and stores its usage. |
| SpecFlags.ApplyPart | lib/src/spec/flag.rs:252-282 | One part: `name:` renames, `--x` adds a long name, `-c` adds one short name (anything longer is refused), `…` marks the argument or the flag variadic, a bracketed part becomes the argument, anything else is refused. |
| SpecFlags.ReplacePads | lib/src/spec/flag.rs:250 | Replacing a character by itself between spaces leaves every occurrence of it with a space on each side. |
| SpecFlags.NormalizePads | lib/src/spec/flag.rs:250 | After normalisation every `…` stands between two spaces, so it is a part of its own. |
| SpecFlags.PartsError | lib/src/spec/flag.rs:251-282 | The parts fail exactly when one of them is refused, and the token reported is the one of the first refused part. |
| SpecFlags.PartLongs | lib/src/spec/flag.rs:254-255 | What one accepted part adds to the long names. |
| SpecFlags.PartShorts | lib/src/spec/flag.rs:256-264 | What one accepted part adds to the short names. |
| SpecFlags.PartName | lib/src/spec/flag.rs:252-253 | A `name:` part renames the flag; no other part does. |
| SpecFlags.PartsNames | lib/src/spec/flag.rs:251-282 | The long and short names are those of the parts, appended in order, and the last `name:` part names the flag. |
| SpecFlags.FromStrError | lib/src/spec/flag.rs:248-288 | A text is refused exactly when one of its parts is. |
| SpecFlags.FromStrAccepted | lib/src/spec/flag.rs:248-288 | An accepted text gives the long and short names of its parts, in order; its last `name:` part names it, and with no name the first long, else the first short, names it; the stored usage is the one the flag prints. |
| SpecFlags.DefaultText | lib/src/spec/flag.rs:70-77 | The text a `default` property is stored as: `true`/`false` for a boolean, the string itself otherwise. |
| SpecFlags.RequiredAfterProps | lib/src/spec/flag.rs:83-85 | Once the properties are read, a flag with a default is optional; the children read afterwards may still set `required`. |
| SpecFlags.FinishParse | lib/src/spec/flag.rs:143-145 | The last steps of `SpecFlag::parse`: the usage is stored, and the first line of the help replaces the stored one (absent without help). |
| FlagUsageRoundTrip.UsageSplit | lib/src/spec/flag.rs:147-167 | The usage is the head parts joined, then the ellipsis, then the argument. |
| FlagUsageRoundTrip.NormalizeArg | lib/src/spec/flag.rs:250 | The argument's part of the usage after normalisation. |
| FlagUsageRoundTrip.NormalizeUsage | lib/src/spec/flag.rs:250 | Normalising the usage sets its ellipses apart and changes nothing else. |
| FlagUsageRoundTrip.WordsPad | lib/src/spec/flag.rs:250-251 | Words around a set-apart ellipsis. |
| FlagUsageRoundTrip.ParseHead | lib/src/spec/flag.rs:252-264 | The head parts give the name, the short and the long name. |
| FlagUsageRoundTrip.BodyReadsBack | lib/src/spec/arg.rs:161-193 | The bracketed usage of a printable argument is read as an argument with the same name, requiredness and double-dash mode. |
| FlagUsageRoundTrip.ParseArgWords | lib/src/spec/flag.rs:265-274 | The argument's parts give the argument back. |
| FlagUsageRoundTrip.ParseUsageWords | lib/src/spec/flag.rs:248-288 | The usage's parts give the names, the variadicity and the argument. |
| FlagUsageRoundTrip.UsageReadsBack | lib/src/spec/flag.rs:147-167 | Reading a printable flag's usage gives back its names, its variadicity and its argument's name, requiredness, variadicity and double-dash mode; so the stored usage is the printed one again. |
| FlagUsageRoundTrip.SameUsage | lib/src/spec/flag.rs:147-167 | The usage depends only on the names, the variadicity and what the argument's usage depends on. |
| UsageSpec.Keys | lib/src/spec/cmd.rs:20 | The keys of an ordered map (the subcommand `IndexMap`), one per entry, in order. |
| UsageSpec.Values | lib/src/spec/cmd.rs:20 | The values of an ordered map, one per entry, in the order of the entries. |
| UsageSpec.IndexOf | lib/src/spec/cmd.rs:20 | The position of a key in an ordered map: where it is and at no earlier position, or absent when no entry has it. |
| UsageSpec.Get | lib/src/spec/cmd.rs:20 | `IndexMap::get` finds a value exactly when some entry has the key. |
| UsageSpec.IndexOfFirst | lib/src/spec/cmd.rs:20 | The first position holding a key is the one `IndexOf` finds. |
| UsageSpec.InsertGet | lib/src/spec/cmd.rs:20 | After an insertion the key maps to the new value. |
| UsageSpec.InsertOther | lib/src/spec/cmd.rs:20 | An insertion leaves every other key as it was. |
| UsageSpec.InsertUnique | lib/src/spec/cmd.rs:20 | An insertion keeps the keys unique, and appends only a new key. |
| UsageSpec.FirstLine | lib/src/string.rs:3-5 | `string::first_line`: a prefix of the text that holds no line feed and stops at the end of the text, at the first `\n`, or at the first `\r\n`, whose `\r` it drops. |
| UsageSpec.FirstLineUnique | lib/src/string.rs:3-5 | The first line is the only prefix that meets those conditions, so they determine it. |

## Left out

- Reading files and the process: `parse_file`, `include` resolution, the markdown builder's load paths and `inject_file`, `Markdown::run`, `Fig::run` (its JSON serialisation and text replacements) and `Lint::run` printing. The contents and names of files are parameters of the model instead.
- The KDL library itself: the parse of a document into nodes and the KDL-to-spec walk of `Spec::parse` and the legacy `from_str` loops are taken as given. The model starts from node values. `From<&X> for KdlNode` and the `Display` impls are modelled as a reference node tree and its printed form. `node.get` is the first entry of that name.
- The markdown directive text is turned into KDL nodes by a parameter, for the same reason.
- clap conversions (`From<&SpecCommand> for clap::Command` and back), because they only call into clap.
- The cobra and pflag host objects are a datatype of the fields the converter reads, not Go's interfaces and accessor methods.
- Tera templates are functions the model does not look into. `print_config` is not modelled, because it is driven by a regular expression over template output.
- The roff textual serialisation of the man page. The model stops at the list of roff requests and text events.
- Environment variables, the current working directory and the terminal width are parameters.
- Case mapping and whitespace are ASCII only. Rust's Unicode `to_uppercase` and `char::is_whitespace` are not modelled.
- `get_flag_key` and the short-flag remainder slice the word by bytes. The model works on characters, which agree for ASCII words.
- `complete_arg`'s branches that run a program or list files: `complete_builtin`, `complete_path` and the `sh`/`run` completers. Their output is a parameter.
- `mount` and `sh`, which run external commands.
- `parse_script` is the composition of the modelled comment extraction and spec reading; it has no member of its own.
- `render_md`, `SpecCommand::merge` and `set_subcommand_ancestors` update an owned tree through `&mut self`. They are modelled as functions that return the new value, so in-place update is not modelled (the tree is owned, so nothing else can see the old value).
- lib/src/parse/cmd.rs is not part of this model. The older spec file's command usage and command merge are parameters of `OlderSpec`. The older `is_empty` is the same test as `SpecFile.SpecIsEmpty`.
- Where the library's versions of the spec records differ, one datatype holds the union: list defaults, `var_min` and `var_max` on flags and arguments, and the `Preserve` double-dash variant. A version that lacks a field ignores it.
- The cobra tests were not followed where they disagree with the code. The model follows `integrations/cobra/convert.go`:
  - a flag default of `"0"` is dropped (convert.go:165);
  - a `[command]` word in the use line is kept as an argument (convert.go:183-194, kdl.go:231-242);
  - a runnable parent still gets `subcommand_required` (convert.go:79-84).
- ArgvScan.Phase1Step: its ensures states only progress and the bound on the word index. What the step keeps is stated by `ArgvScan.Phase1Keeps`.
- ArgvScan.Phase1: its ensures states only the bound on the word index. What the descent keeps is stated by `ArgvScan.Phase1Keeps`.
- Fig.FillOptions: its ensures states only the length of the result. Its contents are stated by `Fig.FillOptionsArgs`.
- OlderSpec.OlderPlaceAll: its ensures states only the keys and names placed. The ancestry paths are stated by `OlderSpec.OlderPlaceAllPaths`.
- MarkdownGen.Shown: its ensures is only a length bound. Which members are shown is stated by `MarkdownGen.ShownMembers`.
- ArgvFinish.Validation: runs the corrected missing-flag and missing-argument checks of the Findings rows for lib/src/parse.rs:587-600 and lib/src/parse.rs:577-579, not the code as written. The as-written behaviour is exhibited by `ArgvFinish.DuplicateMissingFlag` and `ArgvFinish.EnvCheckMismatch` only.
- ArgvFinish.ParsePartial: calls `ArgvFinish.Validation`, so it runs the same corrected checks (Findings rows lib/src/parse.rs:587-600 and 577-579).
- ArgvFinish.ParsePartialWords: computes `ArgvFinish.ParsePartial`, so it runs the corrected checks of the same two Findings rows, not the code as written.
- ArgvFinish.Parse: builds on `ArgvFinish.ParsePartial`, so it runs the corrected checks of the same two Findings rows.
- ArgvFinish.ParseWords: computes `ArgvFinish.Parse`, so it runs the corrected checks of the same two Findings rows, not the code as written.
- LegacyCli.ShortFlag: a variadic flag that takes a value in a short group collects the value, as in the Findings row for lib/src/cli.rs:132-141. The failure as written is exhibited by `LegacyCli.ShortVariadicPanics` only.
- LegacyCli.ParseWords: runs `LegacyCli.ShortFlag`, so it has the same correction (Findings row lib/src/cli.rs:132-141).
- Completion.Complete: takes the previous word from the corrected `Completion.Prev` (Findings row cli/src/cli/complete_word.rs:63). The underflow as written is exhibited by `Completion.PrevUnderflows` only.
- Completion.CompleteWord: computes `Completion.Complete`, so it has the same correction (Findings row cli/src/cli/complete_word.rs:63).
- MarkdownGen.Classify: accepts only a directive with exactly one node (Findings row cli/src/cli/generate/markdown.rs:305). The guard as written is exhibited by `MarkdownGen.NodeCountAsWritten` only.
- MarkdownGen.ClassifySpec: states `MarkdownGen.Classify`, so it has the same correction (Findings row cli/src/cli/generate/markdown.rs:305).
- MarkdownGen.ParseLines: classifies each line with `MarkdownGen.Classify`, so it has the same correction (Findings row cli/src/cli/generate/markdown.rs:305).
- MarkdownGen.ParseReadmeDirectives: computes `MarkdownGen.ParseLines`, so it has the same correction (Findings row cli/src/cli/generate/markdown.rs:305).
- OlderSpec.SplitOlderScript: reads the comment block with the corrected `OlderSpec.Extract` (Findings row lib/src/parse/spec.rs:159), so a bare `#` line is an empty spec line, not a panic. The panic as written is exhibited by `OlderSpec.BareHashPanics` only.
- OlderSpec.ParseOlderFile: splits with `OlderSpec.SplitOlderScript`, so it has the same correction (Findings row lib/src/parse/spec.rs:159).

## Findings

| source | as written | input that shows it | evidently intended | confidence | as-written member | corrected member |
|---|---|---|---|---|---|---|
| lib/src/parse.rs:587-600 | Missing required flags are collected from the table of available flags, which holds each flag once under each of its keys | a required flag `-x, --xx` with no default and no env, not given | the flag is reported missing once | not executed | ArgvFinish.DuplicateMissingFlag | ArgvFinish.CollectMissingFlags |
| lib/src/parse.rs:577-579 | A variable counts as set if the custom env map or the process env holds it, but later values are read only from the custom map when there is one | a required arg and flag with env `E`, a custom map without `E`, and a process env with `E` | the arg and flag are reported missing, because no value is filled in | not executed | ArgvFinish.EnvCheckMismatch | ArgvFinish.CollectMissingArgs |
| lib/src/cli.rs:132-141 | In a group of short flags, a variadic flag always stores `MultiBool`, even when it takes a value, and the value then fails to be added | `-xv` where `-x` is a variadic flag that takes a value | the value is appended to a list, as for `--name v` | not executed | LegacyCli.ShortVariadicPanics | LegacyCli.ShortVariadicCollects |
| cli/src/cli/complete_word.rs:63 | `PREV` is `cword - 1` on an unsigned index | words `["cmd"]` with no `--cword`, so `cword` is 0 | no underflow: a previous word exists only when `cword` is positive | not executed | Completion.PrevUnderflows | Completion.Prev |
| lib/src/spec/builder.rs:188-199 | The flag's usage is computed before an empty name is derived from the long or short flags | a flag with name `""` and long `["xx"]` | the name is derived first, so the usage starts with `-` | not executed | SpecBuilders.BuiltUsageHasColon | SpecBuilders.BuiltNamedUsage |
| cli/src/cli/generate/fig.rs:24-27 | The first character of a description is upper-cased by indexing `v[0]` | an argument whose help is `""` | the empty description is kept as it is | not executed | Fig.EmptyDescriptionPanics | Fig.Capitalize |
| cli/src/cli/generate/markdown.rs:305 | `!len == 1` takes the bitwise complement of the node count, so the guard never fires | a directive with two nodes (the second is ignored), or with none (the unwrap that follows fails) | only a directive with exactly one node is accepted | not executed | MarkdownGen.NodeCountAsWritten | MarkdownGen.NodesDirective |
| lib/src/parse/spec.rs:159 | Each line between the markers has `"# "` stripped, and the strip is unwrapped | a line holding only `#` between the markers | the line is read as an empty spec line | not executed | OlderSpec.BareHashPanics | OlderSpec.ExtractBlock |
