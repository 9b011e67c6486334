/** Parsing a command line against a spec (lib/src/parse.rs), last part:
    the checks after the scan (missing arguments and flags, counts of
    variadic values), the defaults and environment variables applied by
    `Parser::parse`, and the environment `as_env` exports. */
module ArgvFinish {
  import opened Wrappers
  import opened Strings
  import opened UsageSpec
  import opened ArgvScan
  import opened ArgvWords

  /** The parse errors of `UsageErr` that parsing produces; help carries
      whether the long help was asked for, not the rendered text. */
  datatype UsageErr =
    | Help(long: bool)
    | MissingArg(name: string)
    | MissingFlag(name: string)
    | VarArgTooFew(name: string, min: nat, got: nat)
    | VarArgTooMany(name: string, max: nat, got: nat)
    | VarFlagTooFew(name: string, min: nat, got: nat)
    | VarFlagTooMany(name: string, max: nat, got: nat)

  /** `ParseOutput`. */
  datatype ParseOutput = ParseOutput(
    cmd: Command,
    cmds: seq<Command>,
    args: seq<Entry<Bound<Arg>>>,
    flags: seq<Entry<Bound<Flag>>>,
    available: seq<Entry<Flag>>,
    awaiting: seq<Flag>,
    errors: seq<UsageErr>)

  /** The environment: the map given to `Parser::with_env`, if any, and
      the process environment. */
  datatype Env = Env(custom: Option<map<string, string>>, process: map<string, string>)

  /** `get_env` of `Parser::parse`: the custom map when there is one, else
      the process environment. */
  function GetEnv(env: Env, key: string): Option<string> {
    match env.custom
    case Some(c) => if key in c then Some(c[key]) else None
    case None => if key in env.process then Some(env.process[key]) else None
  }

  /** Whether an environment variable counts as set for the checks: it has
      the value `GetEnv` reads. */
  predicate HasEnv(env: Env, key: string) {
    GetEnv(env, key).Some?
  }

  /** The check as the library writes it: set in the custom map or in the
      process environment, even when a custom map is given. */
  predicate HasEnvAsWritten(env: Env, key: string) {
    (env.custom.Some? && key in env.custom.value) || key in env.process
  }

  // ---------------------------------------------------------------------
  // Missing arguments
  // ---------------------------------------------------------------------

  /** An argument left unbound is missing when it is required, has no
      default and no environment variable that gives it a value. */
  predicate ArgMissing(a: Arg, env: Env) {
    a.required && a.default == [] && !(a.env.Some? && HasEnv(env, a.env.value))
  }

  predicate ArgMissingAsWritten(a: Arg, env: Env) {
    a.required && a.default == [] && !(a.env.Some? && HasEnvAsWritten(env, a.env.value))
  }

  /** The arguments after those bound (`cmd.args.iter().skip(args.len())`). */
  function Unbound(cmd: Command, bound: nat): (r: seq<Arg>)
    ensures |r| == if bound < |cmd.args| then |cmd.args| - bound else 0
    ensures forall i :: 0 <= i < |r| ==> r[i] == cmd.args[bound + i]
  {
    if bound < |cmd.args| then cmd.args[bound..] else []
  }

  /** One `MissingArg` per missing argument, in order. */
  function MissingArgs(args: seq<Arg>, env: Env): (r: seq<UsageErr>)
    ensures forall e :: e in r ==> e.MissingArg?
  {
    if args == [] then []
    else
      var a := args[|args| - 1];
      MissingArgs(args[..|args| - 1], env) + (if ArgMissing(a, env) then [MissingArg(a.name)] else [])
  }

  /** An argument is reported exactly when one of that name is missing, and
      nothing else is reported. */
  lemma {:induction false} MissingArgsSpec(args: seq<Arg>, env: Env, n: string)
    ensures MissingArg(n) in MissingArgs(args, env) <==> exists a :: a in args && a.name == n && ArgMissing(a, env)
    ensures forall e :: e in MissingArgs(args, env) ==> e.MissingArg?
  {
    if args != [] {
      var init := args[..|args| - 1];
      MissingArgsSpec(init, env, n);
      assert forall a :: a in args <==> a in init || a == args[|args| - 1];
    }
  }

  /** The loop over the unbound arguments. */
  method CollectMissingArgs(args: seq<Arg>, env: Env) returns (errs: seq<UsageErr>)
    ensures errs == MissingArgs(args, env)
  {
    errs := [];
    for i := 0 to |args|
      invariant errs == MissingArgs(args[..i], env)
    {
      assert args[..i + 1][..i] == args[..i];
      if args[i].required && args[i].default == [] {
        var hasEnv := args[i].env.Some? && HasEnv(env, args[i].env.value);
        if !hasEnv {
          errs := errs + [MissingArg(args[i].name)];
        }
      }
    }
    assert args[..|args|] == args;
  }

  // ---------------------------------------------------------------------
  // Missing flags
  // ---------------------------------------------------------------------

  /** The flag or its argument has a default. */
  predicate HasDefault(f: Flag) {
    f.default != [] || (f.arg.Some? && f.arg.value.default != [])
  }

  /** A flag in scope is missing when it has no value, is required, and has
      neither a default nor an environment variable. */
  predicate FlagMissing(f: Flag, flags: seq<Entry<Bound<Flag>>>, env: Env) {
    Get(flags, f.name).None? && f.required && !HasDefault(f) && !(f.env.Some? && HasEnv(env, f.env.value))
  }

  predicate FlagMissingAsWritten(f: Flag, flags: seq<Entry<Bound<Flag>>>, env: Env) {
    Get(flags, f.name).None? && f.required && !HasDefault(f) && !(f.env.Some? && HasEnvAsWritten(env, f.env.value))
  }

  /** The check as the library writes it: one error per key of the table,
      so a flag found under several keys is reported several times. */
  function MissingFlagsAsWritten(vals: seq<Flag>, flags: seq<Entry<Bound<Flag>>>, env: Env): seq<UsageErr> {
    if vals == [] then []
    else
      var f := vals[|vals| - 1];
      MissingFlagsAsWritten(vals[..|vals| - 1], flags, env) + (if FlagMissingAsWritten(f, flags, env) then [MissingFlag(f.name)] else [])
  }

  /** One `MissingFlag` per missing flag, in the order of the table. */
  function MissingFlags(vals: seq<Flag>, flags: seq<Entry<Bound<Flag>>>, env: Env): seq<UsageErr> {
    if vals == [] then []
    else
      var f := vals[|vals| - 1];
      var prev := MissingFlags(vals[..|vals| - 1], flags, env);
      prev + (if FlagMissing(f, flags, env) && MissingFlag(f.name) !in prev then [MissingFlag(f.name)] else [])
  }

  /** A flag is reported exactly when one of that name is missing, each
      name at most once, and nothing else is reported. */
  lemma {:induction false} MissingFlagsSpec(vals: seq<Flag>, flags: seq<Entry<Bound<Flag>>>, env: Env, n: string)
    ensures MissingFlag(n) in MissingFlags(vals, flags, env) <==> exists f :: f in vals && f.name == n && FlagMissing(f, flags, env)
    ensures forall e :: e in MissingFlags(vals, flags, env) ==> e.MissingFlag?
    ensures forall i, j :: 0 <= i < j < |MissingFlags(vals, flags, env)| ==> MissingFlags(vals, flags, env)[i] != MissingFlags(vals, flags, env)[j]
  {
    if vals != [] {
      var init := vals[..|vals| - 1];
      MissingFlagsSpec(init, flags, env, n);
      assert forall f :: f in vals <==> f in init || f == vals[|vals| - 1];
      var prev := MissingFlags(init, flags, env);
      var r := MissingFlags(vals, flags, env);
      forall i, j | 0 <= i < j < |r| ensures r[i] != r[j] {
        if j == |prev| {
          assert r[i] == prev[i];
        } else {
          assert r[i] == prev[i] && r[j] == prev[j];
        }
      }
    }
  }

  /** The loop over the table, skipping a flag already reported. */
  method CollectMissingFlags(vals: seq<Flag>, flags: seq<Entry<Bound<Flag>>>, env: Env) returns (errs: seq<UsageErr>)
    ensures errs == MissingFlags(vals, flags, env)
  {
    errs := [];
    for i := 0 to |vals|
      invariant errs == MissingFlags(vals[..i], flags, env)
    {
      assert vals[..i + 1][..i] == vals[..i];
      var f := vals[i];
      if Get(flags, f.name).Some? {
        continue;
      }
      var hasDefault := f.default != [] || (f.arg.Some? && f.arg.value.default != []);
      var hasEnv := f.env.Some? && HasEnv(env, f.env.value);
      if f.required && !hasDefault && !hasEnv && MissingFlag(f.name) !in errs {
        errs := errs + [MissingFlag(f.name)];
      }
    }
    assert vals[..|vals|] == vals;
  }

  // ---------------------------------------------------------------------
  // Counts of variadic values
  // ---------------------------------------------------------------------

  /** The errors of one variadic argument's values. */
  function ArgCountErrors(a: Arg, v: ParseValue): seq<UsageErr> {
    if a.variadic && v.MultiString? then
      (if a.varMin.Some? && |v.ss| < a.varMin.value then [VarArgTooFew(a.name, a.varMin.value, |v.ss|)] else []) +
      (if a.varMax.Some? && |v.ss| > a.varMax.value then [VarArgTooMany(a.name, a.varMax.value, |v.ss|)] else [])
    else []
  }

  function VarArgErrors(args: seq<Entry<Bound<Arg>>>): (r: seq<UsageErr>)
    ensures forall e :: e in r ==> e.VarArgTooFew? || e.VarArgTooMany?
  {
    if args == [] then []
    else
      var e := args[|args| - 1].value;
      VarArgErrors(args[..|args| - 1]) + ArgCountErrors(e.key, e.value)
  }

  /** The errors of one argument: too few values exactly when it is
      variadic and holds fewer than its minimum, too many likewise. */
  lemma ArgCountErrorsSpec(a: Arg, v: ParseValue, x: UsageErr)
    ensures x in ArgCountErrors(a, v) <==>
      a.variadic && v.MultiString? &&
      ((a.varMin.Some? && |v.ss| < a.varMin.value && x == VarArgTooFew(a.name, a.varMin.value, |v.ss|)) ||
       (a.varMax.Some? && |v.ss| > a.varMax.value && x == VarArgTooMany(a.name, a.varMax.value, |v.ss|)))
  {
  }

  /** The errors of the arguments are those of each argument. */
  lemma {:induction false} VarArgErrorsSpec(args: seq<Entry<Bound<Arg>>>, x: UsageErr)
    ensures x in VarArgErrors(args) <==> exists e :: e in args && x in ArgCountErrors(e.value.key, e.value.value)
  {
    if args != [] {
      var init := args[..|args| - 1];
      VarArgErrorsSpec(init, x);
      assert forall e :: e in args <==> e in init || e == args[|args| - 1];
    }
  }

  /** The number of values of a variadic flag, if it holds a list. */
  function Count(v: ParseValue): Option<nat> {
    match v
    case MultiString(ss) => Some(|ss|)
    case MultiBool(bs) => Some(|bs|)
    case _ => None
  }

  function FlagCountErrors(f: Flag, v: ParseValue): seq<UsageErr> {
    if f.variadic && Count(v).Some? then
      var n := Count(v).value;
      (if f.varMin.Some? && n < f.varMin.value then [VarFlagTooFew(f.name, f.varMin.value, n)] else []) +
      (if f.varMax.Some? && n > f.varMax.value then [VarFlagTooMany(f.name, f.varMax.value, n)] else [])
    else []
  }

  function VarFlagErrors(flags: seq<Entry<Bound<Flag>>>): (r: seq<UsageErr>)
    ensures forall e :: e in r ==> e.VarFlagTooFew? || e.VarFlagTooMany?
  {
    if flags == [] then []
    else
      var e := flags[|flags| - 1].value;
      VarFlagErrors(flags[..|flags| - 1]) + FlagCountErrors(e.key, e.value)
  }

  /** The errors of one flag: too few values exactly when it is variadic
      and holds a list shorter than its minimum, too many likewise. */
  lemma FlagCountErrorsSpec(f: Flag, v: ParseValue, x: UsageErr)
    ensures x in FlagCountErrors(f, v) <==>
      f.variadic && Count(v).Some? &&
      ((f.varMin.Some? && Count(v).value < f.varMin.value && x == VarFlagTooFew(f.name, f.varMin.value, Count(v).value)) ||
       (f.varMax.Some? && Count(v).value > f.varMax.value && x == VarFlagTooMany(f.name, f.varMax.value, Count(v).value)))
  {
  }

  /** The errors of the flags are those of each flag. */
  lemma {:induction false} VarFlagErrorsSpec(flags: seq<Entry<Bound<Flag>>>, x: UsageErr)
    ensures x in VarFlagErrors(flags) <==> exists e :: e in flags && x in FlagCountErrors(e.value.key, e.value.value)
  {
    if flags != [] {
      var init := flags[..|flags| - 1];
      VarFlagErrorsSpec(init, x);
      assert forall e :: e in flags <==> e in init || e == flags[|flags| - 1];
    }
  }

  /** The check of one argument's values. */
  method CheckArgCount(a: Arg, v: ParseValue) returns (errs: seq<UsageErr>)
    ensures errs == ArgCountErrors(a, v)
  {
    errs := [];
    if a.variadic && v.MultiString? {
      if a.varMin.Some? && |v.ss| < a.varMin.value {
        errs := errs + [VarArgTooFew(a.name, a.varMin.value, |v.ss|)];
      }
      if a.varMax.Some? && |v.ss| > a.varMax.value {
        errs := errs + [VarArgTooMany(a.name, a.varMax.value, |v.ss|)];
      }
    }
  }

  method CollectVarArgErrors(args: seq<Entry<Bound<Arg>>>) returns (errs: seq<UsageErr>)
    ensures errs == VarArgErrors(args)
  {
    errs := [];
    for i := 0 to |args|
      invariant errs == VarArgErrors(args[..i])
    {
      assert args[..i + 1][..i] == args[..i];
      var more := CheckArgCount(args[i].value.key, args[i].value.value);
      errs := errs + more;
    }
    assert args[..|args|] == args;
  }

  /** The check of one flag's values. */
  method CheckFlagCount(f: Flag, v: ParseValue) returns (errs: seq<UsageErr>)
    ensures errs == FlagCountErrors(f, v)
  {
    errs := [];
    var n := Count(v);
    if f.variadic && n.Some? {
      if f.varMin.Some? && n.value < f.varMin.value {
        errs := errs + [VarFlagTooFew(f.name, f.varMin.value, n.value)];
      }
      if f.varMax.Some? && n.value > f.varMax.value {
        errs := errs + [VarFlagTooMany(f.name, f.varMax.value, n.value)];
      }
    }
  }

  method CollectVarFlagErrors(flags: seq<Entry<Bound<Flag>>>) returns (errs: seq<UsageErr>)
    ensures errs == VarFlagErrors(flags)
  {
    errs := [];
    for i := 0 to |flags|
      invariant errs == VarFlagErrors(flags[..i])
    {
      assert flags[..i + 1][..i] == flags[..i];
      var more := CheckFlagCount(flags[i].value.key, flags[i].value.value);
      errs := errs + more;
    }
    assert flags[..|flags|] == flags;
  }

  // ---------------------------------------------------------------------
  // parse_partial
  // ---------------------------------------------------------------------

  /** The checks after a complete scan, in the library's order. */
  function Validation(cmd: Command, args: seq<Entry<Bound<Arg>>>, flags: seq<Entry<Bound<Flag>>>, available: seq<Entry<Flag>>, env: Env): (r: seq<UsageErr>)
    ensures forall e :: e in r ==> !e.Help?
  {
    MissingFlagsSpec(Values(available), flags, env, "");
    MissingArgs(Unbound(cmd, |args|), env) + MissingFlags(Values(available), flags, env) + VarArgErrors(args) + VarFlagErrors(flags)
  }

  /** The scan's starting state for a command. */
  function Begin(d: Descent): Scan {
    Scan(d.input, [], [], [], ArgAt(d.cmd.args, 0), true, false)
  }

  /** `parse_partial_with_env`: the first word (the program) is dropped,
      phase 1 finds the subcommands, phase 2 scans the rest; a help request
      stops with the help error alone, a complete scan is checked. */
  function ParsePartial(spec: Spec, input: seq<string>, env: Env): (r: Result<ParseOutput, Failure>)
    ensures r.Ok? ==> forall e :: e in r.value.errors && e.Help? ==> r.value.errors == [e]
  {
    var words := if input == [] then [] else input[1..];
    var d := Phase1(spec, Start(spec, words));
    match Run(Ctx(spec, d.cmd, d.available), Begin(d))
    case Fail(e) => Err(e)
    case Halt(s, long) => Ok(ParseOutput(d.cmd, d.cmds, s.args, s.flags, d.available, s.awaiting, [Help(long)]))
    case Next(s) => Ok(ParseOutput(d.cmd, d.cmds, s.args, s.flags, d.available, s.awaiting, Validation(d.cmd, s.args, s.flags, d.available, env)))
  }

  /** The output names a chain of subcommands from the root, and only the
      global flags and the found command's own are in scope. */
  ghost predicate FromRoot(spec: Spec, out: ParseOutput) {
    out.cmds != [] && out.cmds[0] == spec.cmd && Chain(out.cmds, out.cmd) && Scoped(out.available, out.cmd)
  }

  /** A help request comes alone; otherwise every missing required argument
      is reported. */
  predicate ReportsMissingArgs(out: ParseOutput, env: Env) {
    out.errors == [Help(false)] || out.errors == [Help(true)] ||
    forall a :: a in Unbound(out.cmd, |out.args|) && ArgMissing(a, env) ==> MissingArg(a.name) in out.errors
  }

  /** A help request comes alone; otherwise every missing required flag in
      scope is reported. */
  predicate ReportsMissingFlags(out: ParseOutput, env: Env) {
    out.errors == [Help(false)] || out.errors == [Help(true)] ||
    forall f :: f in Values(out.available) && FlagMissing(f, out.flags, env) ==> MissingFlag(f.name) in out.errors
  }

  lemma ParsePartialChain(spec: Spec, input: seq<string>, env: Env)
    ensures ParsePartial(spec, input, env).Ok? ==> FromRoot(spec, ParsePartial(spec, input, env).value)
  {
    var words := if input == [] then [] else input[1..];
    StartKeeps(spec, words);
    Phase1Keeps(spec, Start(spec, words));
    PhaseOneRoot(spec, Start(spec, words));
  }

  lemma ParsePartialReports(spec: Spec, input: seq<string>, env: Env)
    ensures ParsePartial(spec, input, env).Ok? ==> ReportsMissingArgs(ParsePartial(spec, input, env).value, env)
    ensures ParsePartial(spec, input, env).Ok? ==> ReportsMissingFlags(ParsePartial(spec, input, env).value, env)
  {
    var r := ParsePartial(spec, input, env);
    if r.Ok? && r.value.errors != [Help(false)] && r.value.errors != [Help(true)] {
      var out := r.value;
      assert out.errors == Validation(out.cmd, out.args, out.flags, out.available, env);
      ValidationReports(out, env);
    }
  }

  /** The checks report every missing argument and flag. */
  lemma ValidationReports(out: ParseOutput, env: Env)
    requires out.errors == Validation(out.cmd, out.args, out.flags, out.available, env)
    ensures forall a :: a in Unbound(out.cmd, |out.args|) && ArgMissing(a, env) ==> MissingArg(a.name) in out.errors
    ensures forall f :: f in Values(out.available) && FlagMissing(f, out.flags, env) ==> MissingFlag(f.name) in out.errors
  {
    forall a | a in Unbound(out.cmd, |out.args|) && ArgMissing(a, env)
      ensures MissingArg(a.name) in out.errors
    {
      MissingArgsSpec(Unbound(out.cmd, |out.args|), env, a.name);
    }
    forall f | f in Values(out.available) && FlagMissing(f, out.flags, env)
      ensures MissingFlag(f.name) in out.errors
    {
      MissingFlagsSpec(Values(out.available), out.flags, env, f.name);
    }
  }

  /** Phase 1 keeps the root at the head of the chain. */
  lemma {:induction false} PhaseOneRoot(spec: Spec, d: Descent)
    requires d.idx <= |d.input| && d.cmds != []
    ensures Phase1(spec, d).cmds != [] && Phase1(spec, d).cmds[0] == d.cmds[0]
    decreases DescentMeasure(d)
  {
    if d.idx < |d.input| {
      match Phase1Step(spec, d) {
        case None =>
        case Some(e) =>
          PhaseOneRoot(spec, e);
      }
    }
  }

  /** The body of `parse_partial_with_env`. */
  method ParsePartialWords(spec: Spec, input: seq<string>, env: Env) returns (r: Result<ParseOutput, Failure>)
    ensures r == ParsePartial(spec, input, env)
  {
    var words := if input == [] then [] else input[1..];
    var d := Descend(spec, words);
    var o := ScanWords(Ctx(spec, d.cmd, d.available), Begin(d));
    match o {
      case Fail(e) =>
        return Err(e);
      case Halt(s, long) =>
        return Ok(ParseOutput(d.cmd, d.cmds, s.args, s.flags, d.available, s.awaiting, [Help(long)]));
      case Next(s) =>
        var missingArgs := CollectMissingArgs(Unbound(d.cmd, |s.args|), env);
        var missingFlags := CollectMissingFlags(Values(d.available), s.flags, env);
        var argCounts := CollectVarArgErrors(s.args);
        var flagCounts := CollectVarFlagErrors(s.flags);
        return Ok(ParseOutput(d.cmd, d.cmds, s.args, s.flags, d.available, s.awaiting, missingArgs + missingFlags + argCounts + flagCounts));
    }
  }

  // ---------------------------------------------------------------------
  // Parser::parse: environment variables and defaults
  // ---------------------------------------------------------------------

  /** The strings read as true for a flag without a value. */
  predicate Truthy(v: string) {
    v == "1" || v == "true" || v == "True" || v == "TRUE"
  }

  function Truths(vs: seq<string>): (r: seq<bool>)
    ensures |r| == |vs| && forall i :: 0 <= i < |vs| ==> r[i] == Truthy(vs[i])
  {
    if vs == [] then [] else [Truthy(vs[0])] + Truths(vs[1..])
  }

  /** The value an unbound argument gets: its environment variable, else
      its default (all of it when variadic, the first one otherwise), else
      none. */
  function ArgFill(a: Arg, env: Env): Option<ParseValue> {
    if a.env.Some? && GetEnv(env, a.env.value).Some? then Some(String(GetEnv(env, a.env.value).value))
    else if a.default != [] then Some(if a.variadic then MultiString(a.default) else String(a.default[0]))
    else None
  }

  function ArgDefaults(args: seq<Arg>, m: seq<Entry<Bound<Arg>>>, env: Env): seq<Entry<Bound<Arg>>> {
    if args == [] then m
    else
      var a := args[|args| - 1];
      var prev := ArgDefaults(args[..|args| - 1], m, env);
      match ArgFill(a, env)
      case None => prev
      case Some(v) => Bind(prev, a.name, a, v)
  }

  /** After the defaults, every argument with an environment value or a
      default is bound, and what was bound stays bound. */
  lemma {:induction false} ArgDefaultsBind(args: seq<Arg>, m: seq<Entry<Bound<Arg>>>, env: Env, n: string)
    ensures Get(m, n).Some? ==> Get(ArgDefaults(args, m, env), n).Some?
    ensures (exists a :: a in args && a.name == n && ArgFill(a, env).Some?) ==> Get(ArgDefaults(args, m, env), n).Some?
    ensures (forall a :: a in args ==> a.name != n || ArgFill(a, env).None?) ==> Get(ArgDefaults(args, m, env), n) == Get(m, n)
  {
    if args != [] {
      var init := args[..|args| - 1];
      var a := args[|args| - 1];
      ArgDefaultsBind(init, m, env, n);
      assert forall x :: x in args <==> x in init || x == a;
      var prev := ArgDefaults(init, m, env);
      if ArgFill(a, env).Some? {
        BindGet(prev, a.name, a, ArgFill(a, env).value, n);
      }
    }
  }

  /** The value a flag without one gets: its environment variable (a string
      for a flag with a value, a truth value otherwise), else its default
      (a list when variadic, the first otherwise), else its argument's
      default. */
  function FlagFill(f: Flag, env: Env): Option<ParseValue> {
    if f.env.Some? && GetEnv(env, f.env.value).Some? then
      var v := GetEnv(env, f.env.value).value;
      Some(if f.arg.Some? then String(v) else Bool(Truthy(v)))
    else if f.default != [] then
      Some(if f.variadic then (if f.arg.Some? then MultiString(f.default) else MultiBool(Truths(f.default)))
           else (if f.arg.Some? then String(f.default[0]) else Bool(Truthy(f.default[0]))))
    else if f.arg.Some? && f.arg.value.default != [] then
      Some(if f.variadic then MultiString(f.arg.value.default) else String(f.arg.value.default[0]))
    else None
  }

  function FlagDefaults(vals: seq<Flag>, m: seq<Entry<Bound<Flag>>>, env: Env): seq<Entry<Bound<Flag>>> {
    if vals == [] then m
    else
      var f := vals[|vals| - 1];
      var prev := FlagDefaults(vals[..|vals| - 1], m, env);
      if Get(prev, f.name).Some? then prev
      else
        match FlagFill(f, env)
        case None => prev
        case Some(v) => Bind(prev, f.name, f, v)
  }

  /** After the defaults, every flag with an environment value or a default
      is bound, what was bound keeps its value, and nothing else is bound. */
  lemma {:induction false} FlagDefaultsBind(vals: seq<Flag>, m: seq<Entry<Bound<Flag>>>, env: Env, n: string)
    ensures Get(m, n).Some? ==> Get(FlagDefaults(vals, m, env), n) == Get(m, n)
    ensures (exists f :: f in vals && f.name == n && FlagFill(f, env).Some?) ==> Get(FlagDefaults(vals, m, env), n).Some?
    ensures (forall f :: f in vals ==> f.name != n || FlagFill(f, env).None?) ==> Get(FlagDefaults(vals, m, env), n) == Get(m, n)
  {
    if vals != [] {
      var init := vals[..|vals| - 1];
      var f := vals[|vals| - 1];
      FlagDefaultsBind(init, m, env, n);
      assert forall x :: x in vals <==> x in init || x == f;
      var prev := FlagDefaults(init, m, env);
      if Get(prev, f.name).None? && FlagFill(f, env).Some? {
        BindGet(prev, f.name, f, FlagFill(f, env).value, n);
      }
    }
  }

  /** How `Parser::parse` fails: the partial parse fails, help was asked
      for, or the checks found errors. */
  datatype ParseError = Failed(failure: Failure) | HelpRequested(long: bool) | Invalid(errors: seq<UsageErr>)

  /** The first help error, if any. */
  function FirstHelp(errs: seq<UsageErr>): (r: Option<bool>)
    ensures r.Some? <==> exists e :: e in errs && e.Help?
    ensures r.Some? ==> Help(r.value) in errs
  {
    if errs == [] then None
    else if errs[0].Help? then Some(errs[0].long)
    else
      assert forall e :: e in errs <==> e == errs[0] || e in errs[1..];
      FirstHelp(errs[1..])
  }

  /** `Parser::parse`: the partial parse, then the values of the unbound
      arguments and of the flags in scope without one, then the errors. */
  function Parse(spec: Spec, input: seq<string>, env: Env): (r: Result<ParseOutput, ParseError>)
    ensures r.Ok? ==> r.value.errors == []
    ensures r.Err? && r.error.Invalid? ==> r.error.errors != [] && forall e :: e in r.error.errors ==> !e.Help?
  {
    match ParsePartial(spec, input, env)
    case Err(e) => Err(Failed(e))
    case Ok(out) => Complete(out, env)
  }

  /** What `Parser::parse` does after the partial parse. */
  function Complete(out: ParseOutput, env: Env): Result<ParseOutput, ParseError> {
    var args := ArgDefaults(Unbound(out.cmd, |out.args|), out.args, env);
    var flags := FlagDefaults(Values(out.available), out.flags, env);
    match FirstHelp(out.errors)
    case Some(long) => Err(HelpRequested(long))
    case None =>
      if out.errors != [] then Err(Invalid(out.errors))
      else Ok(out.(args := args, flags := flags))
  }

  /** When the checks reported every missing argument, a successful parse
      gives each unbound required argument without a default a value. */
  lemma CompleteFillsArgs(out: ParseOutput, env: Env, a: Arg)
    requires ReportsMissingArgs(out, env) && Complete(out, env).Ok?
    requires a in Unbound(out.cmd, |out.args|) && a.required && a.default == []
    ensures Get(Complete(out, env).value.args, a.name).Some?
  {
    var tail := Unbound(out.cmd, |out.args|);
    assert Help(false) in [Help(false)] && Help(true) in [Help(true)];
    assert !ArgMissing(a, env);
    assert ArgFill(a, env).Some?;
    ArgDefaultsBind(tail, out.args, env, a.name);
  }

  /** When the checks reported every missing flag, a successful parse gives
      each required flag in scope a value. */
  lemma CompleteFillsFlags(out: ParseOutput, env: Env, f: Flag)
    requires ReportsMissingFlags(out, env) && Complete(out, env).Ok?
    requires f in Values(out.available) && f.required
    ensures Get(Complete(out, env).value.flags, f.name).Some?
  {
    var vals := Values(out.available);
    assert Help(false) in [Help(false)] && Help(true) in [Help(true)];
    FlagDefaultsBind(vals, out.flags, env, f.name);
    if Get(out.flags, f.name).None? {
      assert !FlagMissing(f, out.flags, env);
      assert FlagFill(f, env).Some?;
    }
  }

  /** A successful parse leaves no required argument without a value: each
      unbound required argument without a default had its environment
      variable applied. */
  lemma ParseFillsRequiredArgs(spec: Spec, input: seq<string>, env: Env, a: Arg)
    requires ParsePartial(spec, input, env).Ok? && Parse(spec, input, env).Ok?
    requires a in Unbound(ParsePartial(spec, input, env).value.cmd, |ParsePartial(spec, input, env).value.args|)
    requires a.required && a.default == []
    ensures Get(Parse(spec, input, env).value.args, a.name).Some?
  {
    ParsePartialReports(spec, input, env);
    CompleteFillsArgs(ParsePartial(spec, input, env).value, env, a);
  }

  /** A successful parse leaves no required flag in scope without a value. */
  lemma ParseFillsRequiredFlags(spec: Spec, input: seq<string>, env: Env, f: Flag)
    requires ParsePartial(spec, input, env).Ok? && Parse(spec, input, env).Ok?
    requires f in Values(ParsePartial(spec, input, env).value.available) && f.required
    ensures Get(Parse(spec, input, env).value.flags, f.name).Some?
  {
    ParsePartialReports(spec, input, env);
    CompleteFillsFlags(ParsePartial(spec, input, env).value, env, f);
  }

  /** The body of `Parser::parse`. */
  method ParseWords(spec: Spec, input: seq<string>, env: Env) returns (r: Result<ParseOutput, ParseError>)
    ensures r == Parse(spec, input, env)
  {
    var partial := ParsePartialWords(spec, input, env);
    if partial.Err? {
      return Err(Failed(partial.error));
    }
    var out := partial.value;
    var args := ApplyArgDefaults(Unbound(out.cmd, |out.args|), out.args, env);
    var flags := ApplyFlagDefaults(Values(out.available), out.flags, env);
    var help := FirstHelp(out.errors);
    if help.Some? {
      return Err(HelpRequested(help.value));
    }
    if out.errors != [] {
      return Err(Invalid(out.errors));
    }
    r := Ok(out.(args := args, flags := flags));
  }

  /** The loop over the unbound arguments. */
  method ApplyArgDefaults(args: seq<Arg>, m: seq<Entry<Bound<Arg>>>, env: Env) returns (r: seq<Entry<Bound<Arg>>>)
    ensures r == ArgDefaults(args, m, env)
  {
    r := m;
    for i := 0 to |args|
      invariant r == ArgDefaults(args[..i], m, env)
    {
      assert args[..i + 1][..i] == args[..i];
      var fill := ArgFill(args[i], env);
      if fill.Some? {
        r := Bind(r, args[i].name, args[i], fill.value);
      }
    }
    assert args[..|args|] == args;
  }

  /** The loop over the flags in scope. */
  method ApplyFlagDefaults(vals: seq<Flag>, m: seq<Entry<Bound<Flag>>>, env: Env) returns (r: seq<Entry<Bound<Flag>>>)
    ensures r == FlagDefaults(vals, m, env)
  {
    r := m;
    for i := 0 to |vals|
      invariant r == FlagDefaults(vals[..i], m, env)
    {
      assert vals[..i + 1][..i] == vals[..i];
      if Get(r, vals[i].name).Some? {
        continue;
      }
      var fill := FlagFill(vals[i], env);
      if fill.Some? {
        r := Bind(r, vals[i].name, vals[i], fill.value);
      }
    }
    assert vals[..|vals|] == vals;
  }

  // ---------------------------------------------------------------------
  // Two discrepancies in the checks
  // ---------------------------------------------------------------------

  /** A required flag with a long and a short name sits in the table under
      both keys, and the check as written reports it twice; the corrected
      check reports it once. */
  lemma DuplicateMissingFlag(f: Flag, cmd: Command, env: Env)
    requires f.long == ["xx"] && f.short == ['x'] && f.negate.None?
    requires f.required && f.default == [] && f.arg.None? && f.env.None?
    requires cmd.flags == [f]
    ensures Gather(cmd) == [Entry("--xx", f), Entry("-x", f)]
    ensures MissingFlagsAsWritten(Values(Gather(cmd)), [], env) == [MissingFlag(f.name), MissingFlag(f.name)]
    ensures MissingFlags(Values(Gather(cmd)), [], env) == [MissingFlag(f.name)]
  {
    TwoKeyTable(f, cmd);
    var table := [Entry("--xx", f), Entry("-x", f)];
    assert Values(table) == [f, f];
    TwiceMissing(f, env);
  }

  /** The checks on a table listing a missing flag twice. */
  lemma TwiceMissing(f: Flag, env: Env)
    requires f.required && f.default == [] && f.arg.None? && f.env.None?
    ensures MissingFlagsAsWritten([f, f], [], env) == [MissingFlag(f.name), MissingFlag(f.name)]
    ensures MissingFlags([f, f], [], env) == [MissingFlag(f.name)]
  {
    assert FlagMissing(f, [], env) && FlagMissingAsWritten(f, [], env);
    assert [f, f][..1] == [f];
    assert [f][..0] == [];
    assert MissingFlags([f], [], env) == [MissingFlag(f.name)];
    assert MissingFlagsAsWritten([f], [], env) == [MissingFlag(f.name)];
  }

  /** The table of a command whose one flag is `-x, --xx`. */
  lemma TwoKeyTable(f: Flag, cmd: Command)
    requires f.long == ["xx"] && f.short == ['x'] && f.negate.None?
    requires cmd.flags == [f]
    ensures Gather(cmd) == [Entry("--xx", f), Entry("-x", f)]
  {
    TwoKeyPairs(f);
    TwoKeyPuts(f);
  }

  lemma TwoKeyPairs(f: Flag)
    requires f.long == ["xx"] && f.short == ['x'] && f.negate.None?
    ensures FlagPairs([f]) == [Entry("--xx", f), Entry("-x", f)]
  {
    assert "--" + "xx" == "--xx";
    assert LongKeys(f.long) == ["--xx"];
    assert ShortKeys(f.short) == ["-x"];
    assert FlagKeys(f) == ["--xx", "-x"];
    assert FlagPairs([f][1..]) == [];
    assert PairsOf(f, ["--xx", "-x"]) == [Entry("--xx", f), Entry("-x", f)];
  }

  /** `--xx` sorts before `-x`, so inserting both in order keeps them so. */
  lemma TwoKeyPuts(f: Flag)
    ensures PutAll([], [Entry("--xx", f), Entry("-x", f)]) == [Entry("--xx", f), Entry("-x", f)]
  {
    var pairs := [Entry("--xx", f), Entry("-x", f)];
    assert !LessEq("-x", "--xx") by {
      assert !LessEq("x", "-xx");
    }
    assert Put([], "--xx", f) == [Entry("--xx", f)];
    assert Put([Entry("--xx", f)], "-x", f) == pairs by {
      assert Put([Entry("--xx", f)][1..], "-x", f) == [Entry("-x", f)];
    }
    assert pairs[1..] == [Entry("-x", f)];
    assert pairs[1..][1..] == [];
    calc {
      PutAll([], pairs);
      PutAll([Entry("--xx", f)], pairs[1..]);
      PutAll(pairs, pairs[1..][1..]);
    }
  }

  /** With a custom map that lacks the variable while the process
      environment has it, the check as written counts the variable as set,
      yet the value is read from the custom map only: a required argument
      or flag is neither reported missing nor given a value. */
  lemma EnvCheckMismatch(a: Arg, f: Flag, env: Env)
    requires a.required && a.default == [] && a.env.Some?
    requires f.required && !HasDefault(f) && f.env == a.env
    requires env.custom.Some? && a.env.value !in env.custom.value && a.env.value in env.process
    ensures !ArgMissingAsWritten(a, env) && ArgFill(a, env).None?
    ensures !FlagMissingAsWritten(f, [], env) && FlagFill(f, env).None?
    ensures ArgMissing(a, env) && FlagMissing(f, [], env)
  {
  }

  // ---------------------------------------------------------------------
  // as_env
  // ---------------------------------------------------------------------

  /** Inserting key/value pairs in order into a map: the last pair for a
      key wins. */
  function Assign(m: map<string, string>, ps: seq<(string, string)>): map<string, string> {
    if ps == [] then m else Assign(m, ps[..|ps| - 1])[ps[|ps| - 1].0 := ps[|ps| - 1].1]
  }

  /** Keys that all start with a prefix, before and in the pairs, still do
      after the insertions. */
  lemma {:induction false} AssignPrefix(m: map<string, string>, ps: seq<(string, string)>, pre: string)
    requires forall k :: k in m ==> StartsWith(k, pre)
    requires forall i :: 0 <= i < |ps| ==> StartsWith(ps[i].0, pre)
    ensures forall k :: k in Assign(m, ps) ==> StartsWith(k, pre)
  {
    if ps != [] {
      AssignPrefix(m, ps[..|ps| - 1], pre);
    }
  }

  /** The keys are the old ones and those of the pairs, and a key holds the
      value of its last pair. */
  lemma {:induction false} AssignSpec(m: map<string, string>, ps: seq<(string, string)>, k: string)
    ensures k in Assign(m, ps) <==> k in m || exists i :: 0 <= i < |ps| && ps[i].0 == k
    ensures forall i :: 0 <= i < |ps| && ps[i].0 == k && (forall j :: i < j < |ps| ==> ps[j].0 != k) ==> Assign(m, ps)[k] == ps[i].1
    ensures k in m && (forall i :: 0 <= i < |ps| ==> ps[i].0 != k) ==> Assign(m, ps)[k] == m[k]
  {
    if ps != [] {
      var init := ps[..|ps| - 1];
      AssignSpec(m, init, k);
      assert forall i :: 0 <= i < |init| ==> init[i] == ps[i];
    }
  }

  lemma AssignNext(ps: seq<(string, string)>, i: nat)
    requires i < |ps|
    ensures Assign(map[], ps[..i + 1]) == Assign(map[], ps[..i])[ps[i].0 := ps[i].1]
  {
    assert ps[..i + 1][..i] == ps[..i];
  }

  function BoolText(b: bool): string {
    if b then "true" else "false"
  }

  /** The number of true values. */
  function CountTrue(bs: seq<bool>): (r: nat)
    ensures r <= |bs|
  {
    if bs == [] then 0 else CountTrue(bs[..|bs| - 1]) + (if bs[|bs| - 1] then 1 else 0)
  }

  function BoolTexts(bs: seq<bool>): (r: seq<string>)
    ensures |r| == |bs| && forall i :: 0 <= i < |bs| ==> r[i] == BoolText(bs[i])
  {
    if bs == [] then [] else [BoolText(bs[0])] + BoolTexts(bs[1..])
  }

  /** A flag's value in the environment: a count for repeated booleans,
      the shell-quoted join for repeated strings. */
  function FlagText(v: ParseValue, shellJoin: seq<string> -> string): string {
    match v
    case Bool(b) => BoolText(b)
    case String(s) => s
    case MultiBool(bs) => NatToString(CountTrue(bs))
    case MultiString(ss) => shellJoin(ss)
  }

  /** `Display for ParseValue`: repeated booleans are written out. */
  function ValueText(v: ParseValue, shellJoin: seq<string> -> string): string {
    match v
    case Bool(b) => BoolText(b)
    case String(s) => s
    case MultiBool(bs) => Join(BoolTexts(bs), " ")
    case MultiString(ss) => shellJoin(ss)
  }

  /** The variable named after a flag or argument. */
  function EnvKey(name: string, snake: string -> string): string {
    "usage_" + snake(name)
  }

  function FlagVars(flags: seq<Entry<Bound<Flag>>>, snake: string -> string, shellJoin: seq<string> -> string): (r: seq<(string, string)>)
    ensures |r| == |flags|
    ensures forall i :: 0 <= i < |flags| ==> r[i] == (EnvKey(flags[i].value.key.name, snake), FlagText(flags[i].value.value, shellJoin))
  {
    if flags == [] then []
    else FlagVars(flags[..|flags| - 1], snake, shellJoin) + [(EnvKey(flags[|flags| - 1].value.key.name, snake), FlagText(flags[|flags| - 1].value.value, shellJoin))]
  }

  function ArgVars(args: seq<Entry<Bound<Arg>>>, snake: string -> string, shellJoin: seq<string> -> string): (r: seq<(string, string)>)
    ensures |r| == |args|
    ensures forall i :: 0 <= i < |args| ==> r[i] == (EnvKey(args[i].value.key.name, snake), ValueText(args[i].value.value, shellJoin))
  {
    if args == [] then []
    else ArgVars(args[..|args| - 1], snake, shellJoin) + [(EnvKey(args[|args| - 1].value.key.name, snake), ValueText(args[|args| - 1].value.value, shellJoin))]
  }

  /** The pairs `as_env` inserts: the flags', then the arguments'. */
  function Vars(out: ParseOutput, snake: string -> string, shellJoin: seq<string> -> string): (r: seq<(string, string)>)
    ensures |r| == |out.flags| + |out.args|
  {
    FlagVars(out.flags, snake, shellJoin) + ArgVars(out.args, snake, shellJoin)
  }

  lemma VarsFlag(out: ParseOutput, snake: string -> string, shellJoin: seq<string> -> string, i: nat)
    requires i < |out.flags|
    ensures Vars(out, snake, shellJoin)[i] == (EnvKey(out.flags[i].value.key.name, snake), FlagText(out.flags[i].value.value, shellJoin))
  {
  }

  lemma VarsArg(out: ParseOutput, snake: string -> string, shellJoin: seq<string> -> string, j: nat)
    requires j < |out.args|
    ensures Vars(out, snake, shellJoin)[|out.flags| + j] == (EnvKey(out.args[j].value.key.name, snake), ValueText(out.args[j].value.value, shellJoin))
  {
  }

  /** `ParseOutput::as_env`: the flags, then the arguments, each under
      `usage_` and its snake-cased name; the case conversion and the shell
      quoting are parameters. */
  function AsEnv(out: ParseOutput, snake: string -> string, shellJoin: seq<string> -> string): (r: map<string, string>)
    ensures forall k :: k in r ==> StartsWith(k, "usage_")
  {
    var ps := Vars(out, snake, shellJoin);
    forall i | 0 <= i < |ps| ensures StartsWith(ps[i].0, "usage_") {
      if i < |out.flags| {
        VarsFlag(out, snake, shellJoin, i);
        StartsWithAppend("usage_", snake(out.flags[i].value.key.name));
      } else {
        VarsArg(out, snake, shellJoin, i - |out.flags|);
        StartsWithAppend("usage_", snake(out.args[i - |out.flags|].value.key.name));
      }
    }
    AssignPrefix(map[], ps, "usage_");
    Assign(map[], ps)
  }

  /** The variables are exactly those named after a flag or argument that
      has a value. */
  lemma AsEnvKeys(out: ParseOutput, snake: string -> string, shellJoin: seq<string> -> string, k: string)
    ensures k in AsEnv(out, snake, shellJoin) <==>
      (exists i :: 0 <= i < |out.flags| && EnvKey(out.flags[i].value.key.name, snake) == k) ||
      (exists j :: 0 <= j < |out.args| && EnvKey(out.args[j].value.key.name, snake) == k)
  {
    var ps := Vars(out, snake, shellJoin);
    var n := |out.flags|;
    AssignSpec(map[], ps, k);
    if exists x :: 0 <= x < |ps| && ps[x].0 == k {
      var x :| 0 <= x < |ps| && ps[x].0 == k;
      if x < n {
        VarsFlag(out, snake, shellJoin, x);
      } else {
        VarsArg(out, snake, shellJoin, x - n);
      }
    }
    if exists i :: 0 <= i < |out.flags| && EnvKey(out.flags[i].value.key.name, snake) == k {
      var i :| 0 <= i < |out.flags| && EnvKey(out.flags[i].value.key.name, snake) == k;
      VarsFlag(out, snake, shellJoin, i);
    }
    if exists j :: 0 <= j < |out.args| && EnvKey(out.args[j].value.key.name, snake) == k {
      var j :| 0 <= j < |out.args| && EnvKey(out.args[j].value.key.name, snake) == k;
      VarsArg(out, snake, shellJoin, j);
    }
  }

  /** An argument's variable holds its displayed value, overriding a flag of
      the same name; the last argument of that name wins. */
  lemma AsEnvArg(out: ParseOutput, snake: string -> string, shellJoin: seq<string> -> string, j: nat)
    requires j < |out.args|
    requires forall j' :: j < j' < |out.args| ==> EnvKey(out.args[j'].value.key.name, snake) != EnvKey(out.args[j].value.key.name, snake)
    ensures EnvKey(out.args[j].value.key.name, snake) in AsEnv(out, snake, shellJoin)
    ensures AsEnv(out, snake, shellJoin)[EnvKey(out.args[j].value.key.name, snake)] == ValueText(out.args[j].value.value, shellJoin)
  {
    var k := EnvKey(out.args[j].value.key.name, snake);
    var ps := Vars(out, snake, shellJoin);
    var n := |out.flags|;
    AssignSpec(map[], ps, k);
    VarsArg(out, snake, shellJoin, j);
    forall x | n + j < x < |ps| ensures ps[x].0 != k {
      VarsArg(out, snake, shellJoin, x - n);
    }
  }

  /** A flag's variable holds its value when no argument and no later flag
      has the same variable. */
  lemma AsEnvFlag(out: ParseOutput, snake: string -> string, shellJoin: seq<string> -> string, i: nat)
    requires i < |out.flags|
    requires forall i' :: i < i' < |out.flags| ==> EnvKey(out.flags[i'].value.key.name, snake) != EnvKey(out.flags[i].value.key.name, snake)
    requires forall j :: 0 <= j < |out.args| ==> EnvKey(out.args[j].value.key.name, snake) != EnvKey(out.flags[i].value.key.name, snake)
    ensures EnvKey(out.flags[i].value.key.name, snake) in AsEnv(out, snake, shellJoin)
    ensures AsEnv(out, snake, shellJoin)[EnvKey(out.flags[i].value.key.name, snake)] == FlagText(out.flags[i].value.value, shellJoin)
  {
    var k := EnvKey(out.flags[i].value.key.name, snake);
    var ps := Vars(out, snake, shellJoin);
    var n := |out.flags|;
    AssignSpec(map[], ps, k);
    VarsFlag(out, snake, shellJoin, i);
    forall x | i < x < |ps| ensures ps[x].0 != k {
      if x < n {
        VarsFlag(out, snake, shellJoin, x);
      } else {
        VarsArg(out, snake, shellJoin, x - n);
      }
    }
  }

  /** A repeated boolean flag exports the number of times it was true, in
      decimal digits. */
  lemma CountedFlagText(bs: seq<bool>, shellJoin: seq<string> -> string)
    ensures var t := FlagText(MultiBool(bs), shellJoin);
      t != [] && (forall c :: 0 <= c < |t| ==> IsDigit(t[c])) && DigitsValue(t) == CountTrue(bs)
  {
    NatToStringValue(CountTrue(bs));
  }

  /** The body of `as_env`: two loops inserting into a map. */
  method ExportEnv(out: ParseOutput, snake: string -> string, shellJoin: seq<string> -> string) returns (env: map<string, string>)
    ensures env == AsEnv(out, snake, shellJoin)
  {
    ghost var ps := Vars(out, snake, shellJoin);
    var n := |out.flags|;
    env := map[];
    for i := 0 to |out.flags| + |out.args|
      invariant env == Assign(map[], ps[..i])
    {
      AssignNext(ps, i);
      if i < n {
        VarsFlag(out, snake, shellJoin, i);
        env := env[EnvKey(out.flags[i].value.key.name, snake) := FlagText(out.flags[i].value.value, shellJoin)];
      } else {
        VarsArg(out, snake, shellJoin, i - n);
        env := env[EnvKey(out.args[i - n].value.key.name, snake) := ValueText(out.args[i - n].value.value, shellJoin)];
      }
    }
    assert ps[..|ps|] == ps;
  }
}
