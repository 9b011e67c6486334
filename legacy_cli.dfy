/** The older, simpler command-line parser (lib/src/cli.rs): a leading run
    of subcommand names, then one pass over the words with no checks, no
    defaults and no environment, and the exported environment of its
    flags. */
module LegacyCli {
  import opened Wrappers
  import opened Strings
  import opened UsageSpec
  import opened SpecCommands
  import opened ArgvScan
  import opened ArgvWords
  import opened ArgvFinish

  // ---------------------------------------------------------------------
  // Subcommands
  // ---------------------------------------------------------------------

  /** Where the subcommand loop stops: the command found, the commands
      entered, the flags in scope and the words left. */
  datatype Entered = Entered(cmd: Command, cmds: seq<Command>, available: seq<Entry<Flag>>, input: seq<string>)

  /** The loop `while let Some(sub) = cmd.find_subcommand(&input[0])`: each
      subcommand word is removed, and the flags in scope become the globals
      plus the subcommand's own. */
  function Subcommands(e: Entered): Entered
    decreases |e.input|
  {
    if e.input == [] then e
    else
      match FindSubcommand(e.cmd, e.input[0])
      case None => e
      case Some(sub) => Subcommands(Entered(sub, e.cmds + [sub], Descended(e.available, sub), e.input[1..]))
  }

  ghost predicate EnteredOk(e: Entered) {
    Chain(e.cmds, e.cmd) && Scoped(e.available, e.cmd)
  }

  /** The chain of commands and the scope of the flags are kept. */
  lemma {:induction false} SubcommandsKeep(e: Entered)
    requires EnteredOk(e)
    ensures EnteredOk(Subcommands(e))
    decreases |e.input|
  {
    if e.input != [] {
      match FindSubcommand(e.cmd, e.input[0]) {
        case None =>
        case Some(sub) =>
          FindIsChild(e.cmd, e.input[0]);
          ChainGrows(e.cmds, e.cmd, sub);
          DescendedScoped(e.available, sub);
          SubcommandsKeep(Entered(sub, e.cmds + [sub], Descended(e.available, sub), e.input[1..]));
      }
    }
  }

  /** Only a leading run of subcommand words is consumed, one command per
      word, and the loop stops at the first word that names none. */
  lemma {:induction false} SubcommandsConsume(e: Entered)
    ensures var r := Subcommands(e);
      |r.input| <= |e.input| && r.input == e.input[|e.input| - |r.input|..] &&
      |r.cmds| == |e.cmds| + (|e.input| - |r.input|) && r.cmds[..|e.cmds|] == e.cmds &&
      (r.input == [] || FindSubcommand(r.cmd, r.input[0]).None?)
    decreases |e.input|
  {
    if e.input != [] {
      match FindSubcommand(e.cmd, e.input[0]) {
        case None =>
        case Some(sub) =>
          var next := Entered(sub, e.cmds + [sub], Descended(e.available, sub), e.input[1..]);
          SubcommandsConsume(next);
          var r := Subcommands(next);
          assert r.cmds[..|e.cmds|] == r.cmds[..|next.cmds|][..|e.cmds|];
          assert e.input[1..][|next.input| - |r.input|..] == e.input[|e.input| - |r.input|..];
      }
    }
  }

  /** The start: the root with its own flags, the program word dropped. */
  function Root(spec: Spec, input: seq<string>): Entered {
    Entered(spec.cmd, [spec.cmd], Gather(spec.cmd), if input == [] then [] else input[1..])
  }

  lemma RootOk(spec: Spec, input: seq<string>)
    ensures EnteredOk(Root(spec, input))
  {
    StartKeeps(spec, []);
  }

  method EnterSubcommands(spec: Spec, input: seq<string>) returns (e: Entered)
    ensures e == Subcommands(Root(spec, input))
  {
    e := Root(spec, input);
    while e.input != []
      invariant Subcommands(e) == Subcommands(Root(spec, input))
      decreases |e.input|
    {
      var sub := FindSubcommand(e.cmd, e.input[0]);
      if sub.None? {
        return;
      }
      e := Entered(sub.value, e.cmds + [sub.value], Descended(e.available, sub.value), e.input[1..]);
    }
  }

  // ---------------------------------------------------------------------
  // The words
  // ---------------------------------------------------------------------

  /** The scan state: words left, values so far, the next positional, the
      flag waiting for a value, and whether flags are still recognised. */
  datatype Pass = Pass(
    input: seq<string>,
    args: seq<Entry<Bound<Arg>>>,
    flags: seq<Entry<Bound<Flag>>>,
    nextArg: Option<Arg>,
    awaiting: Option<Flag>,
    enableFlags: bool)

  datatype Outcome = Continue(state: Pass) | Stop(failure: Failure)

  /** A word either handled by a flag check or passed on (with the words
      left possibly changed). */
  datatype Route = Handled(o: Outcome) | Passed(s: Pass)

  /** The value for the flag that was waiting: appended when the flag is
      variadic (a panic when it holds booleans), set otherwise. */
  function PendingValue(s: Pass, f: Flag, w: string): (o: Outcome)
    ensures o.Continue? ==> o.state.input == s.input && o.state.awaiting.None? && o.state.args == s.args
  {
    if f.variadic then
      match PushString(s.flags, f.name, f, w)
      case None => Stop(Panic)
      case Some(p) => Continue(s.(flags := p.entries, awaiting := None))
    else Continue(s.(flags := Bind(s.flags, f.name, f, String(w)), awaiting := None))
  }

  /** A word `--...` while flags are on: a value after `=` goes back to the
      front of the words; a known key either waits for a value, counts, or
      sets true (false for the negation word). */
  function LongFlag(available: seq<Entry<Flag>>, s: Pass, w: string): (r: Route)
    ensures !(s.enableFlags && StartsWith(w, "--")) ==> r == Passed(s)
    ensures s.enableFlags && StartsWith(w, "--") ==>
      var t := if r.Passed? then r.s else if r.o.Continue? then r.o.state else s;
      Half(w) + Weight(t.input) < Pow2(|w|) + Weight(s.input)
    ensures r.Passed? ==> r.s.awaiting == s.awaiting && r.s.args == s.args && r.s.flags == s.flags && r.s.nextArg == s.nextArg && r.s.enableFlags == s.enableFlags
  {
    if s.enableFlags && StartsWith(w, "--") then
      var word := SplitEq(w).0;
      var val := SplitEq(w).1;
      var s2 := if val != "" then s.(input := [val] + s.input) else s;
      LongWeight(w, s.input);
      match Get(available, word)
      case None => Passed(s2)
      case Some(f) =>
        if f.arg.Some? then Handled(Continue(s2.(awaiting := Some(f))))
        else if f.variadic then
          match PushTrue(s2.flags, f.name, f)
          case None => Handled(Stop(Panic))
          case Some(m) => Handled(Continue(s2.(flags := m)))
        else
          var negate := if f.negate.Some? then f.negate.value else "";
          Handled(Continue(s2.(flags := Bind(s2.flags, f.name, f, Bool(w != negate)))))
    else Passed(s)
  }

  /** A short flag's own update as the library writes it: a variadic flag
      pushes `true`, even when it takes a value. */
  function ShortHitAsWritten(s: Pass, f: Flag): (o: Outcome)
    ensures o.Continue? ==> o.state.input == s.input && o.state.awaiting == s.awaiting
  {
    if f.variadic then
      match PushTrue(s.flags, f.name, f)
      case None => Stop(Panic)
      case Some(m) => Continue(s.(flags := m))
    else Continue(s.(flags := Bind(s.flags, f.name, f, Bool(true))))
  }

  /** The corrected update: a variadic flag that takes a value leaves its
      list to the value, as the long form does. */
  function ShortHit(s: Pass, f: Flag): (o: Outcome)
    ensures o.Continue? ==> o.state.input == s.input && o.state.awaiting == s.awaiting
    ensures f.variadic && f.arg.Some? ==> o == Continue(s)
    ensures !(f.variadic && f.arg.Some?) ==> o == ShortHitAsWritten(s, f)
  {
    if f.variadic && f.arg.Some? then Continue(s)
    else ShortHitAsWritten(s, f)
  }

  /** The words after a short flag `-c...`: with a value the rest of the
      word is the value (possibly empty); without, `-` and the rest, unless
      that is `-` alone. */
  function ShortRest(w: string, f: Flag): string
    requires |w| >= 2
  {
    if f.arg.Some? then w[2..] else "-" + w[2..]
  }

  /** A word `-c...` while flags are on, with `-c` a known key. */
  function ShortFlag(available: seq<Entry<Flag>>, s: Pass, w: string): (r: Route)
    ensures !(s.enableFlags && StartsWith(w, "-") && |w| > 1) ==> r == Passed(s)
    ensures r.Passed? ==> r.s == s
    ensures r.Handled? && r.o.Continue? ==> Weight(r.o.state.input) <= Half(w) + Weight(s.input)
  {
    if s.enableFlags && StartsWith(w, "-") && |w| > 1 then
      match Get(available, ['-', w[1]])
      case None => Passed(s)
      case Some(f) =>
        var next := ShortRest(w, f);
        Pow2Mono(|next|, |w| - 1);
        var s2 := s.(input := if next != "-" then [next] + s.input else s.input,
                     awaiting := if f.arg.Some? then Some(f) else s.awaiting);
        Handled(ShortHit(s2, f))
    else Passed(s)
  }

  /** A word for the next positional: appended while it is variadic (the
      next one comes once `var_max` values are held), set otherwise; with
      no positional left the word is an error. */
  function Positional(cmd: Command, s: Pass, w: string): (o: Outcome)
    ensures o.Continue? ==> o.state.input == s.input && o.state.flags == s.flags && o.state.awaiting == s.awaiting
    ensures s.nextArg.None? ==> o == Stop(Bail("unexpected word: " + w))
  {
    match s.nextArg
    case None => Stop(Bail("unexpected word: " + w))
    case Some(a) =>
      if a.variadic then
        match PushString(s.args, a.name, a, w)
        case None => Stop(Panic)
        case Some(p) =>
          var full := a.varMax.Some? && p.len >= a.varMax.value;
          Continue(s.(args := p.entries, nextArg := if full then ArgAt(cmd.args, |p.entries|) else s.nextArg))
      else
        var m := Bind(s.args, a.name, a, String(w));
        Continue(s.(args := m, nextArg := ArgAt(cmd.args, |m|)))
  }

  /** One word: a waiting flag takes it whatever it is; then `--`, the
      long and short flag checks and the positional. The words left always
      weigh less afterwards. */
  function Step(cmd: Command, available: seq<Entry<Flag>>, s: Pass): (o: Outcome)
    requires s.input != []
    ensures o.Continue? ==> Weight(o.state.input) < Weight(s.input)
  {
    var w := s.input[0];
    var s1 := s.(input := s.input[1..]);
    if s.awaiting.Some? then PendingValue(s1, s.awaiting.value, w)
    else if w == "--" then Continue(s1.(enableFlags := false))
    else
      match LongFlag(available, s1, w)
      case Handled(o) => o
      case Passed(s2) =>
        match ShortFlag(available, s2, w)
        case Handled(o) => o
        case Passed(s3) => Positional(cmd, s3, w)
  }

  function Run(cmd: Command, available: seq<Entry<Flag>>, s: Pass): (o: Outcome)
    ensures o.Continue? ==> o.state.input == []
    decreases Weight(s.input)
  {
    if s.input == [] then Continue(s)
    else
      match Step(cmd, available, s)
      case Stop(f) => Stop(f)
      case Continue(s1) => Run(cmd, available, s1)
  }

  /** The legacy `ParseOutput`. */
  datatype Output = Output(
    cmd: Command,
    cmds: seq<Command>,
    args: seq<Entry<Bound<Arg>>>,
    flags: seq<Entry<Bound<Flag>>>,
    available: seq<Entry<Flag>>,
    awaiting: Option<Flag>)

  /** The legacy `parse`. */
  function Parse(spec: Spec, input: seq<string>): Result<Output, Failure> {
    var e := Subcommands(Root(spec, input));
    match Run(e.cmd, e.available, Pass(e.input, [], [], ArgAt(e.cmd.args, 0), None, true))
    case Stop(f) => Err(f)
    case Continue(t) => Ok(Output(e.cmd, e.cmds, t.args, t.flags, e.available, t.awaiting))
  }

  /** The commands found form a chain from the root, and only the globals
      and the last command's own flags are in scope. */
  ghost predicate FromRoot(spec: Spec, out: Output) {
    out.cmds != [] && out.cmds[0] == spec.cmd && Chain(out.cmds, out.cmd) && Scoped(out.available, out.cmd)
  }

  lemma ParseChain(spec: Spec, input: seq<string>)
    ensures Parse(spec, input).Ok? ==> FromRoot(spec, Parse(spec, input).value)
  {
    RootOk(spec, input);
    SubcommandsKeep(Root(spec, input));
    SubcommandsConsume(Root(spec, input));
    var e := Subcommands(Root(spec, input));
    assert e.cmds[..1] == [spec.cmd];
  }

  /** The body of the legacy `parse`: the subcommand loop, then the word
      loop. */
  method ParseWords(spec: Spec, input: seq<string>) returns (r: Result<Output, Failure>)
    ensures r == Parse(spec, input)
  {
    var e := EnterSubcommands(spec, input);
    var start := Pass(e.input, [], [], ArgAt(e.cmd.args, 0), None, true);
    var s := start;
    while s.input != []
      invariant Run(e.cmd, e.available, s) == Run(e.cmd, e.available, start)
      decreases Weight(s.input)
    {
      var o := Step(e.cmd, e.available, s);
      if o.Stop? {
        return Err(o.failure);
      }
      s := o.state;
    }
    r := Ok(Output(e.cmd, e.cmds, s.args, s.flags, e.available, s.awaiting));
  }

  // ---------------------------------------------------------------------
  // Properties of one word
  // ---------------------------------------------------------------------

  /** A flag waiting for a value takes the next word whatever it is, even
      `--` or a flag; a non-variadic flag is set to it. */
  lemma PendingTakesAnyWord(cmd: Command, available: seq<Entry<Flag>>, s: Pass, f: Flag)
    requires s.input != [] && s.awaiting == Some(f) && !f.variadic
    ensures Step(cmd, available, s) == Continue(s.(input := s.input[1..], awaiting := None, flags := Bind(s.flags, f.name, f, String(s.input[0]))))
  {
  }

  /** A waiting variadic flag appends the word to its list. */
  lemma PendingAppends(cmd: Command, available: seq<Entry<Flag>>, s: Pass, f: Flag)
    requires s.input != [] && s.awaiting == Some(f) && f.variadic
    requires Get(s.flags, f.name).None? || Get(s.flags, f.name).value.value.MultiString?
    ensures Step(cmd, available, s).Continue?
    ensures var prev := if Get(s.flags, f.name).None? then [] else Get(s.flags, f.name).value.value.ss;
      Get(Step(cmd, available, s).state.flags, f.name).Some? &&
      Get(Step(cmd, available, s).state.flags, f.name).value.value == MultiString(prev + [s.input[0]])
  {
    PushStringGet(s.flags, f.name, f, s.input[0]);
  }

  /** `--` turns flag parsing off and is dropped. */
  lemma DoubleDashOff(cmd: Command, available: seq<Entry<Flag>>, s: Pass)
    requires s.input != [] && s.input[0] == "--" && s.awaiting.None?
    ensures Step(cmd, available, s) == Continue(s.(input := s.input[1..], enableFlags := false))
  {
  }

  /** With flags off every word but `--` goes to the positionals. */
  lemma FlagsOffPositional(cmd: Command, available: seq<Entry<Flag>>, s: Pass)
    requires s.input != [] && s.input[0] != "--" && s.awaiting.None? && !s.enableFlags
    ensures Step(cmd, available, s) == Positional(cmd, s.(input := s.input[1..]), s.input[0])
  {
  }

  /** `--name=v` and `--name v` (next lemma) leave the same state for a
      flag that takes a value: the flag waits and `v` is the next word. */
  lemma LongEqualsForm(cmd: Command, available: seq<Entry<Flag>>, s: Pass, name: string, v: string, rest: seq<string>, f: Flag)
    requires '=' !in name && v != ""
    requires Get(available, "--" + name) == Some(f) && f.arg.Some?
    requires s.enableFlags && s.awaiting.None?
    ensures Step(cmd, available, s.(input := ["--" + name + "=" + v] + rest)) == Continue(s.(input := [v] + rest, awaiting := Some(f)))
  {
    FlagKeyEquals("--" + name, v);
    assert "--" + name + "=" + v == ("--" + name) + "=" + v;
    assert StartsWith("--" + name + "=" + v, "--");
  }

  /** `--name` for a flag that takes a value waits for the next word. */
  lemma LongSpaceForm(cmd: Command, available: seq<Entry<Flag>>, s: Pass, name: string, rest: seq<string>, f: Flag)
    requires '=' !in name && name != ""
    requires Get(available, "--" + name) == Some(f) && f.arg.Some?
    requires s.enableFlags && s.awaiting.None?
    ensures Step(cmd, available, s.(input := ["--" + name] + rest)) == Continue(s.(input := rest, awaiting := Some(f)))
  {
    assert StartsWith("--" + name, "--");
    SplitHasEquals("--" + name);
    var w := "--" + name;
    assert '=' !in w by {
      assert forall i :: 2 <= i < |w| ==> w[i] == name[i - 2];
    }
    assert SplitEq(w) == (w, "");
  }

  /** The negation word sets its flag to false, any other key to true. */
  lemma NegateSetsFalse(cmd: Command, available: seq<Entry<Flag>>, s: Pass, w: string, f: Flag)
    requires s.input != [] && s.input[0] == w && s.enableFlags && s.awaiting.None?
    requires StartsWith(w, "--") && '=' !in w && w != "--"
    requires Get(available, w) == Some(f) && f.arg.None? && !f.variadic
    ensures Step(cmd, available, s) == Continue(s.(input := s.input[1..], flags := Bind(s.flags, f.name, f, Bool(Some(w) != f.negate))))
  {
    SplitHasEquals(w);
  }

  /** A short flag without a value re-queues the rest of its group as a
      new short word, and nothing when the group is done. */
  lemma ShortGroupRequeue(cmd: Command, available: seq<Entry<Flag>>, s: Pass, c: char, more: string, f: Flag)
    requires s.input != [] && s.input[0] == ['-', c] + more && s.enableFlags && s.awaiting.None?
    requires !StartsWith(s.input[0], "--")
    requires Get(available, ['-', c]) == Some(f) && f.arg.None? && !f.variadic
    ensures Step(cmd, available, s) == Continue(s.(
      input := (if more != [] then ["-" + more] else []) + s.input[1..],
      flags := Bind(s.flags, f.name, f, Bool(true))))
  {
    var w := s.input[0];
    assert w[1] == c && w[2..] == more;
  }

  /** A short flag that takes a value waits for it and queues the rest of
      its word as that value. */
  lemma ShortValueRest(cmd: Command, available: seq<Entry<Flag>>, s: Pass, c: char, v: string, f: Flag)
    requires s.input != [] && s.input[0] == ['-', c] + v && s.enableFlags && s.awaiting.None?
    requires !StartsWith(s.input[0], "--") && v != "-"
    requires Get(available, ['-', c]) == Some(f) && f.arg.Some?
    ensures Step(cmd, available, s).Continue?
    ensures Step(cmd, available, s).state.input == [v] + s.input[1..]
    ensures Step(cmd, available, s).state.awaiting == Some(f)
  {
    var w := s.input[0];
    assert w[1] == c && w[2..] == v;
  }

  /** `-c` alone, for a non-variadic flag that takes a value, sets the flag
      to the empty string: the empty rest is queued and taken as the
      value. */
  lemma ShortEmptyValue(cmd: Command, available: seq<Entry<Flag>>, s: Pass, c: char, f: Flag)
    requires s.input != [] && s.input[0] == ['-', c] && s.enableFlags && s.awaiting.None?
    requires c != '-'
    requires Get(available, ['-', c]) == Some(f) && f.arg.Some? && !f.variadic
    ensures Step(cmd, available, s).Continue?
    ensures var t := Step(cmd, available, s).state;
      t.input == [""] + s.input[1..] &&
      Step(cmd, available, t) == Continue(t.(input := s.input[1..], awaiting := None, flags := Bind(t.flags, f.name, f, String(""))))
  {
    ShortValueRest(cmd, available, s, c, "", f);
    assert ['-', c] == ['-', c] + "";
  }

  /** A word with no positional left is the error "unexpected word". */
  lemma UnexpectedWord(cmd: Command, available: seq<Entry<Flag>>, s: Pass)
    requires s.input != [] && !s.enableFlags && s.input[0] != "--" && s.awaiting.None? && s.nextArg.None?
    ensures Step(cmd, available, s) == Stop(Bail("unexpected word: " + s.input[0]))
  {
  }

  /** A variadic positional collects its words and moves on once it holds
      `var_max` of them. */
  lemma VariadicPositional(cmd: Command, s: Pass, w: string, a: Arg)
    requires s.nextArg == Some(a) && a.variadic
    requires Get(s.args, a.name).None? || Get(s.args, a.name).value.value.MultiString?
    ensures Positional(cmd, s, w).Continue?
    ensures var t := Positional(cmd, s, w).state;
      var prev := if Get(s.args, a.name).None? then [] else Get(s.args, a.name).value.value.ss;
      Get(t.args, a.name).Some? && Get(t.args, a.name).value.value == MultiString(prev + [w]) &&
      (t.nextArg == s.nextArg <==> !(a.varMax.Some? && |prev| + 1 >= a.varMax.value) || ArgAt(cmd.args, |t.args|) == s.nextArg)
  {
    PushStringGet(s.args, a.name, a, w);
  }

  // ---------------------------------------------------------------------
  // The short variadic flag that takes a value
  // ---------------------------------------------------------------------

  /** As written, `-xv` for a variadic flag that takes a value first stores
      a list of booleans, so taking the value `v` panics. */
  lemma ShortVariadicPanics(s: Pass, f: Flag, v: string)
    requires f.variadic && f.arg.Some? && Get(s.flags, f.name).None?
    ensures ShortHitAsWritten(s, f).Continue?
    ensures PendingValue(ShortHitAsWritten(s, f).state, f, v) == Stop(Panic)
  {
    BindGet(s.flags, f.name, f, MultiBool([true]), f.name);
  }

  /** Corrected, `-cv` and `--name v` agree for a variadic flag that takes
      a value: the value is appended to the flag's list. */
  lemma ShortVariadicCollects(cmd: Command, available: seq<Entry<Flag>>, s: Pass, c: char, v: string, f: Flag)
    requires s.input != [] && s.input[0] == ['-', c] + v && s.enableFlags && s.awaiting.None?
    requires c != '-' && v != "-"
    requires Get(available, ['-', c]) == Some(f) && f.arg.Some? && f.variadic
    requires Get(s.flags, f.name).None?
    ensures Step(cmd, available, s) == Continue(s.(input := [v] + s.input[1..], awaiting := Some(f)))
    ensures var t := Step(cmd, available, s).state;
      Step(cmd, available, t).Continue? && Get(Step(cmd, available, t).state.flags, f.name).Some? &&
      Get(Step(cmd, available, t).state.flags, f.name).value.value == MultiString([v])
  {
    ShortValueRest(cmd, available, s, c, v, f);
    var t := Step(cmd, available, s).state;
    PendingAppends(cmd, available, t, f);
  }

  // ---------------------------------------------------------------------
  // as_env
  // ---------------------------------------------------------------------

  function CommaJoin(ss: seq<string>): string {
    Join(ss, ",")
  }

  /** The legacy `as_env`: the flags only, lists joined with commas. */
  function Env(out: Output, snake: string -> string): (r: map<string, string>)
    ensures forall k :: k in r ==> StartsWith(k, "usage_")
  {
    var ps := FlagVars(out.flags, snake, CommaJoin);
    forall i | 0 <= i < |ps| ensures StartsWith(ps[i].0, "usage_") {
      StartsWithAppend("usage_", snake(out.flags[i].value.key.name));
    }
    AssignPrefix(map[], ps, "usage_");
    Assign(map[], ps)
  }

  /** The variables are exactly those named after a flag with a value, and
      each holds the value of the last flag of that name. */
  lemma EnvSpec(out: Output, snake: string -> string, i: nat)
    requires i < |out.flags|
    requires forall i' :: i < i' < |out.flags| ==> EnvKey(out.flags[i'].value.key.name, snake) != EnvKey(out.flags[i].value.key.name, snake)
    ensures EnvKey(out.flags[i].value.key.name, snake) in Env(out, snake)
    ensures Env(out, snake)[EnvKey(out.flags[i].value.key.name, snake)] == FlagText(out.flags[i].value.value, CommaJoin)
  {
    var ps := FlagVars(out.flags, snake, CommaJoin);
    AssignSpec(map[], ps, EnvKey(out.flags[i].value.key.name, snake));
  }

  lemma EnvKeys(out: Output, snake: string -> string, k: string)
    ensures k in Env(out, snake) <==> exists i :: 0 <= i < |out.flags| && EnvKey(out.flags[i].value.key.name, snake) == k
  {
    AssignSpec(map[], FlagVars(out.flags, snake, CommaJoin), k);
  }

  /** A list of strings is exported joined with commas. */
  lemma EnvListText(ss: seq<string>)
    ensures FlagText(MultiString(ss), CommaJoin) == Join(ss, ",")
  {
  }

  /** The loop of `as_env`. */
  method ExportEnv(out: Output, snake: string -> string) returns (env: map<string, string>)
    ensures env == Env(out, snake)
  {
    ghost var ps := FlagVars(out.flags, snake, CommaJoin);
    env := map[];
    for i := 0 to |out.flags|
      invariant env == Assign(map[], ps[..i])
    {
      AssignNext(ps, i);
      env := env[EnvKey(out.flags[i].value.key.name, snake) := FlagText(out.flags[i].value.value, CommaJoin)];
    }
    assert ps[..|ps|] == ps;
  }
}
