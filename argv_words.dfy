/** Parsing a command line against a spec (lib/src/parse.rs), second part:
    the word-by-word scan after the subcommands have been found. `Step`
    consumes one word; `Run` scans to the end of the input or to the first
    word that stops the parse; `ScanWords` is the loop of the library,
    proved to compute `Run`. */
module ArgvWords {
  import opened Wrappers
  import opened Strings
  import opened UsageSpec
  import opened ArgvScan

  /** What the scan knows: the spec, the command the words belong to and
      the flags in scope. */
  datatype Ctx = Ctx(spec: Spec, cmd: Command, available: seq<Entry<Flag>>)

  /** The state of the scan: the words left, the values bound so far, the
      flags waiting for a value, the next positional argument, whether
      words may still be flags (until `--`) and whether the current word
      is the rest of a group of short flags. */
  datatype Scan = Scan(
    input: seq<string>,
    args: seq<Entry<Bound<Arg>>>,
    flags: seq<Entry<Bound<Flag>>>,
    awaiting: seq<Flag>,
    nextArg: Option<Arg>,
    enableFlags: bool,
    grouped: bool)

  /** How the parse fails: a `bail!` with its message, or the panic of an
      `unwrap` on a value of the wrong kind. */
  datatype Failure = Bail(msg: string) | Panic

  /** After one word: go on, stop because help was asked for (`long` for a
      word longer than two characters), or fail. */
  datatype Outcome = Next(state: Scan) | Halt(state: Scan, long: bool) | Fail(failure: Failure)

  /** After the flag checks: the word was handled, or it goes on to the
      value checks (possibly shortened). */
  datatype Routed = Done(o: Outcome) | Value(s: Scan, w: string)

  // ---------------------------------------------------------------------
  // Termination measure
  // ---------------------------------------------------------------------

  function Pow2(n: nat): (r: nat)
    ensures r >= 1
  {
    if n == 0 then 1 else 2 * Pow2(n - 1)
  }

  lemma {:induction false} Pow2Mono(a: nat, b: nat)
    requires a <= b
    ensures Pow2(a) <= Pow2(b)
    decreases b
  {
    if a < b {
      Pow2Mono(a, b - 1);
    }
  }

  /** Each word weighs two to the power of its length: a word may be
      replaced by two shorter ones (a long flag's value and the rest of a
      short group) and the total still falls. */
  function Weight(ws: seq<string>): nat {
    if ws == [] then 0 else Pow2(|ws[0]|) + Weight(ws[1..])
  }

  function Half(w: string): nat {
    if w == [] then 0 else Pow2(|w| - 1)
  }

  // ---------------------------------------------------------------------
  // One word
  // ---------------------------------------------------------------------

  /** The positional argument at a position, if there is one (`args.get(i)`). */
  function ArgAt(args: seq<Arg>, i: nat): (r: Option<Arg>)
    ensures r.Some? <==> i < |args|
    ensures r.Some? ==> r.value == args[i]
  {
    if i < |args| then Some(args[i]) else None
  }

  /** A `--` goes on to the argument when that argument is variadic and
      keeps double dashes. */
  predicate Preserves(a: Option<Arg>) {
    a.Some? && a.value.variadic && a.value.doubleDash == Preserve
  }

  function ChoiceMsg(kind: string, name: string, w: string, cs: seq<string>): string {
    "Invalid choice for " + kind + " " + name + ": " + w + ", expected one of " + Join(cs, ", ")
  }

  /** A word outside the choices: help when it asks for help, else the
      parse fails. */
  function Rejected(ctx: Ctx, s: Scan, w: string, kind: string, name: string, cs: seq<string>): (o: Outcome)
    ensures o.Halt? <==> IsHelpArg(ctx.spec, w)
    ensures o.Halt? ==> o.state == s && o.long == (|w| > 2)
    ensures o.Fail? ==> o.failure == Bail(ChoiceMsg(kind, name, w, cs))
  {
    if IsHelpArg(ctx.spec, w) then Halt(s, |w| > 2) else Fail(Bail(ChoiceMsg(kind, name, w, cs)))
  }

  /** A word that names a flag: a flag taking a value waits for it, a
      counting flag counts one more, any other flag is set, to false when
      the word is its negation. */
  function Hit(s: Scan, f: Flag, w: string): (o: Outcome)
    requires w != []
    ensures !o.Halt?
    ensures o.Fail? <==> f.arg.None? && f.count && PushTrue(s.flags, f.name, f).None?
    ensures o.Next? ==> o.state.input == s.input && o.state.args == s.args && o.state.nextArg == s.nextArg
    ensures o.Next? && f.arg.Some? ==> o.state.awaiting == s.awaiting + [f] && o.state.flags == s.flags
    ensures o.Next? && f.arg.None? ==> o.state.awaiting == s.awaiting && Get(o.state.flags, f.name).Some?
    ensures o.Next? && f.arg.None? && !f.count ==> Get(o.state.flags, f.name).value.value == Bool(Some(w) != f.negate)
  {
    if f.arg.Some? then Next(s.(awaiting := s.awaiting + [f]))
    else if f.count then
      match PushTrue(s.flags, f.name, f)
      case None => Fail(Panic)
      case Some(m) =>
        BindGetTrue(s.flags, f.name, f);
        Next(s.(flags := m))
    else
      BindGet(s.flags, f.name, f, Bool(w != f.negate.GetOr("")), f.name);
      Next(s.(flags := Bind(s.flags, f.name, f, Bool(w != f.negate.GetOr("")))))
  }

  lemma BindGetTrue(m: seq<Entry<Bound<Flag>>>, name: string, key: Flag)
    requires PushTrue(m, name, key).Some?
    ensures Get(PushTrue(m, name, key).value, name).Some?
  {
    match Get(m, name) {
      case None =>
        BindGet(m, name, key, MultiBool([true]), name);
      case Some(b) =>
        BindGet(m, name, key, MultiBool(b.value.bs + [true]), name);
    }
  }

  /** The long-flag checks: a word starting with `--` while flags are on is
      split at its first `=` (the value goes back to the front of the
      input); the part before names a flag, or asks for help, or the word
      goes on to the short-flag checks. */
  function LongWord(ctx: Ctx, s: Scan, w: string): (r: Routed)
    ensures r.Done? && r.o.Next? ==> Weight(r.o.state.input) < Pow2(|w|) + Weight(s.input)
    ensures r.Value? ==> Weight(r.s.input) < Pow2(|w|) + Weight(s.input)
    ensures r.Value? ==> r.s.awaiting == s.awaiting && r.s.args == s.args && r.s.nextArg == s.nextArg
  {
    if s.enableFlags && StartsWith(w, "--") then
      var (word, val) := SplitEq(w);
      var s1 := s.(grouped := false, input := if val != "" then [val] + s.input else s.input);
      LongWeight(w, s.input);
      match Get(ctx.available, word)
      case Some(f) => Done(Hit(s1, f, w))
      case None =>
        if IsHelpArg(ctx.spec, w) then Done(Halt(s1, |w| > 2))
        else ShortWord(ctx, s1, w)
    else
      ShortWord(ctx, s, w)
  }

  /** `split_once('=')`, or the whole word and an empty value. */
  function SplitEq(w: string): (string, string) {
    match SplitOnce(w, "=")
    case None => (w, "")
    case Some(p) => p
  }

  /** The value split off a long flag word and the rest of the word
      together weigh less than the word. */
  lemma LongWeight(w: string, rest: seq<string>)
    requires StartsWith(w, "--")
    ensures var val := SplitEq(w).1;
      Half(w) + Weight(if val != "" then [val] + rest else rest) < Pow2(|w|) + Weight(rest)
  {
    var val := SplitEq(w).1;
    if SplitOnce(w, "=").Some? {
      EqualsAfterDashes(w);
      Pow2Mono(|val|, |w| - 2);
    } else {
      assert val == "";
    }
  }

  /** The short-flag checks: a word `-x...` while flags are on looks up
      `-x`; a hit pushes the rest of the group back as `-...`; a miss asks
      for help, or goes on to the value checks, without its dash when it is
      the rest of a group. */
  function ShortWord(ctx: Ctx, s: Scan, w: string): (r: Routed)
    ensures r.Done? && r.o.Next? ==> Weight(r.o.state.input) <= Half(w) + Weight(s.input)
    ensures r.Value? ==> r.s.input == s.input && r.s.awaiting == s.awaiting && r.s.args == s.args && r.s.nextArg == s.nextArg
  {
    if s.enableFlags && StartsWith(w, "-") && |w| > 1 then
      match Get(ctx.available, ['-', w[1]])
      case Some(f) =>
        var s1 := if |w| > 2 then s.(input := ["-" + w[2..]] + s.input, grouped := true) else s;
        Done(Hit(s1, f, w))
      case None =>
        if IsHelpArg(ctx.spec, w) then Done(Halt(s, |w| > 2))
        else if s.grouped then Value(s.(grouped := false), w[1..])
        else Value(s, w)
    else
      Value(s, w)
  }

  /** A value for a flag that was waiting for one: checked against the
      choices of the flag's argument, then appended (variadic flag) or
      set. */
  function FlagValue(ctx: Ctx, s: Scan, flag: Flag, w: string): (o: Outcome)
    ensures o.Next? ==> o.state.input == s.input && o.state.awaiting == s.awaiting && o.state.args == s.args && o.state.nextArg == s.nextArg
    ensures o.Next? ==> flag.arg.Some? && (flag.arg.value.choices.None? || w in flag.arg.value.choices.value)
    ensures o.Next? && !flag.variadic ==> Get(o.state.flags, flag.name).Some? && Get(o.state.flags, flag.name).value.value == String(w)
  {
    if flag.arg.None? then Fail(Panic)
    else
      var cs := flag.arg.value.choices;
      if cs.Some? && w !in cs.value then Rejected(ctx, s, w, "option", flag.name, cs.value)
      else if flag.variadic then
        match PushString(s.flags, flag.name, flag, w)
        case None => Fail(Panic)
        case Some(p) => Next(s.(flags := p.entries))
      else
        BindGet(s.flags, flag.name, flag, String(w), flag.name);
        Next(s.(flags := Bind(s.flags, flag.name, flag, String(w))))
  }

  /** The waiting flags, last first: the first takes the word, the others
      the empty string. */
  function TakeValues(ctx: Ctx, s: Scan, w: string): (o: Outcome)
    ensures o.Next? ==> o.state.input == s.input && o.state.awaiting == [] && o.state.args == s.args && o.state.nextArg == s.nextArg
    decreases |s.awaiting|
  {
    if s.awaiting == [] then Next(s)
    else
      var flag := s.awaiting[|s.awaiting| - 1];
      var s1 := s.(awaiting := s.awaiting[..|s.awaiting| - 1]);
      match FlagValue(ctx, s1, flag, w)
      case Next(s2) => TakeValues(ctx, s2, "")
      case o => o
  }

  /** A positional word: checked against the choices of the next argument,
      then appended (variadic argument, which gives way to the next one once
      it holds its maximum) or set (and the next argument is the one after
      those bound); with no argument left, help or an unexpected word. */
  function Positional(ctx: Ctx, s: Scan, w: string): (o: Outcome)
    ensures o.Next? ==> o.state.input == s.input && o.state.awaiting == s.awaiting && o.state.flags == s.flags
    ensures o.Next? ==> s.nextArg.Some? && Get(o.state.args, s.nextArg.value.name).Some?
    ensures s.nextArg.None? ==> o == (if IsHelpArg(ctx.spec, w) then Halt(s, |w| > 2) else Fail(Bail("unexpected word: " + w)))
  {
    match s.nextArg
    case None =>
      if IsHelpArg(ctx.spec, w) then Halt(s, |w| > 2) else Fail(Bail("unexpected word: " + w))
    case Some(arg) =>
      if arg.choices.Some? && w !in arg.choices.value then Rejected(ctx, s, w, "arg", arg.name, arg.choices.value)
      else if arg.variadic then
        match PushString(s.args, arg.name, arg, w)
        case None => Fail(Panic)
        case Some(p) =>
          PushStringGet(s.args, arg.name, arg, w);
          var next := if arg.varMax.Some? && p.len >= arg.varMax.value then ArgAt(ctx.cmd.args, |p.entries|) else s.nextArg;
          Next(s.(args := p.entries, nextArg := next))
      else
        var m := Bind(s.args, arg.name, arg, String(w));
        BindGet(s.args, arg.name, arg, String(w), arg.name);
        Next(s.(args := m, nextArg := ArgAt(ctx.cmd.args, |m|)))
  }

  /** A word that is not a flag: a value for the waiting flags, else a
      positional word. */
  function ValueWord(ctx: Ctx, s: Scan, w: string): (o: Outcome)
    ensures o.Next? ==> o.state.input == s.input
  {
    if s.awaiting != [] then TakeValues(ctx, s, w) else Positional(ctx, s, w)
  }

  /** The state after the restart token: arguments start over, waiting
      flags are dropped and flags are on again; the flags keep their
      values. */
  function Restart(ctx: Ctx, s: Scan): Scan {
    s.(args := [], nextArg := ArgAt(ctx.cmd.args, 0), awaiting := [], enableFlags := true)
  }

  /** One word: the restart token, `--`, then the flag checks, then the
      value checks. The words left always weigh less afterwards. */
  function Step(ctx: Ctx, s: Scan): (o: Outcome)
    requires s.input != []
    ensures o.Next? ==> Weight(o.state.input) < Weight(s.input)
  {
    var w := s.input[0];
    var s1 := s.(input := s.input[1..]);
    if ctx.cmd.restartToken == Some(w) then Next(Restart(ctx, s1))
    else if w == "--" && !Preserves(s1.nextArg) then Next(s1.(enableFlags := false))
    else
      var s2 := if w == "--" then s1.(enableFlags := false) else s1;
      match LongWord(ctx, s2, w)
      case Done(o) => o
      case Value(s3, w3) => ValueWord(ctx, s3, w3)
  }

  /** The scan to the end of the input, or to the first word that asks
      for help or fails. */
  function Run(ctx: Ctx, s: Scan): (o: Outcome)
    ensures o.Next? ==> o.state.input == []
    decreases Weight(s.input)
  {
    if s.input == [] then Next(s)
    else
      match Step(ctx, s)
      case Next(s1) => Run(ctx, s1)
      case o => o
  }

  // ---------------------------------------------------------------------
  // The loops
  // ---------------------------------------------------------------------

  /** The `while let Some(flag) = flag_awaiting_value.pop()` loop. */
  method TakeValuesLoop(ctx: Ctx, s: Scan, w: string) returns (o: Outcome)
    ensures o == TakeValues(ctx, s, w)
  {
    var cur := s;
    var word := w;
    while cur.awaiting != []
      invariant TakeValues(ctx, cur, word) == TakeValues(ctx, s, w)
      decreases |cur.awaiting|
    {
      var flag := cur.awaiting[|cur.awaiting| - 1];
      cur := cur.(awaiting := cur.awaiting[..|cur.awaiting| - 1]);
      var r := FlagValue(ctx, cur, flag, word);
      if !r.Next? {
        return r;
      }
      cur := r.state;
      word := "";
    }
    o := Next(cur);
  }

  /** The phase 2 loop of `parse_partial_with_env`. */
  method ScanWords(ctx: Ctx, start: Scan) returns (o: Outcome)
    ensures o == Run(ctx, start)
  {
    var s := start;
    while s.input != []
      invariant Run(ctx, s) == Run(ctx, start)
      decreases Weight(s.input)
    {
      ghost var before := s;
      var w := s.input[0];
      s := s.(input := s.input[1..]);
      if ctx.cmd.restartToken == Some(w) {
        s := s.(args := [], nextArg := ArgAt(ctx.cmd.args, 0), awaiting := [], enableFlags := true);
        assert Step(ctx, before) == Next(s);
        continue;
      }
      if w == "--" {
        s := s.(enableFlags := false);
        if !Preserves(s.nextArg) {
          assert Step(ctx, before) == Next(s);
          continue;
        }
      }
      var routed := LongWord(ctx, s, w);
      var r: Outcome;
      if routed.Done? {
        r := routed.o;
      } else if routed.s.awaiting != [] {
        r := TakeValuesLoop(ctx, routed.s, routed.w);
      } else {
        r := Positional(ctx, routed.s, routed.w);
      }
      assert Step(ctx, before) == r;
      if !r.Next? {
        return r;
      }
      s := r.state;
    }
    o := Next(s);
  }

  // ---------------------------------------------------------------------
  // Properties of the scan
  // ---------------------------------------------------------------------

  /** `--name=value` and `--name value` bind the same: both leave the flag
      waiting with the value next in line. */
  lemma EqualsFormSame(ctx: Ctx, s: Scan, name: string, v: string, rest: seq<string>, f: Flag)
    requires StartsWith(name, "--") && '=' !in name && name != "--" && v != ""
    requires s.enableFlags && Get(ctx.available, name) == Some(f) && f.arg.Some?
    requires ctx.cmd.restartToken != Some(name + "=" + v) && ctx.cmd.restartToken != Some(name)
    ensures Step(ctx, s.(input := [name + "=" + v] + rest)) == Step(ctx, s.(input := [name, v] + rest))
    ensures Step(ctx, s.(input := [name, v] + rest)) == Next(s.(input := [v] + rest, grouped := false, awaiting := s.awaiting + [f]))
  {
    var w := name + "=" + v;
    FlagKeyEquals(name, v);
    SplitHasEquals(name);
    assert w[..2] == name[..2];
    assert w != "--";
    assert ([name + "=" + v] + rest)[1..] == rest;
    assert ([name, v] + rest)[1..] == [v] + rest;
  }

  /** A help word that names no flag stops the scan with a help request,
      long for `--help`, even while a flag waits for its value. */
  lemma HelpWordHalts(ctx: Ctx, s: Scan)
    requires s.input != [] && (s.input[0] == "--help" || s.input[0] == "-h" || s.input[0] == "-?")
    requires s.enableFlags && ctx.spec.disableHelp != Some(true)
    requires ctx.cmd.restartToken != Some(s.input[0]) && Get(ctx.available, s.input[0]).None?
    ensures Step(ctx, s).Halt? && Step(ctx, s).long == (s.input[0] == "--help")
  {
    var w := s.input[0];
    if w == "--help" {
      SplitHasEquals(w);
    } else {
      assert ['-', w[1]] == w;
    }
  }

  /** After `--` every word is a positional word, whatever it looks like. */
  lemma AfterDoubleDash(ctx: Ctx, s: Scan)
    requires s.input != [] && !s.enableFlags && s.awaiting == []
    requires ctx.cmd.restartToken != Some(s.input[0]) && s.input[0] != "--"
    ensures Step(ctx, s) == Positional(ctx, s.(input := s.input[1..]), s.input[0])
  {
  }

  /** `-xyz` with `-x` a plain flag sets `-x` and puts `-yz` back in front. */
  lemma ShortGroup(ctx: Ctx, s: Scan, c: char, more: string, f: Flag)
    requires s.input != [] && s.input[0] == ['-', c] + more && more != [] && c != '-' && s.enableFlags
    requires ctx.cmd.restartToken != Some(s.input[0])
    requires Get(ctx.available, ['-', c]) == Some(f) && f.arg.None? && !f.count && f.negate.None?
    ensures Step(ctx, s).Next?
    ensures Step(ctx, s).state.input == ["-" + more] + s.input[1..] && Step(ctx, s).state.grouped
    ensures Get(Step(ctx, s).state.flags, f.name) == Some(Bound(f, Bool(true))) || Get(s.flags, f.name).Some?
  {
    var w := s.input[0];
    assert w[1] == c && w[2..] == more;
    assert !StartsWith(w, "--");
    BindGet(s.flags, f.name, f, Bool(true), f.name);
    if Get(s.flags, f.name).None? {
      assert IndexOf(s.flags, f.name).None?;
    }
  }

  /** The words held by a variadic value, none for anything else. */
  function Held<K>(m: seq<Entry<Bound<K>>>, name: string): seq<string> {
    match Get(m, name)
    case Some(b) => if b.value.MultiString? then b.value.ss else []
    case None => []
  }

  /** Words that are neither flags nor the restart token all go, in order,
      to a variadic argument with no maximum and no choices. */
  lemma {:induction false} VariadicCollects(ctx: Ctx, s: Scan)
    requires PlainWords(ctx, s.input)
    requires s.awaiting == [] && s.nextArg.Some? && s.nextArg.value.variadic
    requires s.nextArg.value.varMax.None? && s.nextArg.value.choices.None?
    requires Get(s.args, s.nextArg.value.name).None? || Get(s.args, s.nextArg.value.name).value.value.MultiString?
    ensures Run(ctx, s).Next?
    ensures Held(Run(ctx, s).state.args, s.nextArg.value.name) == Held(s.args, s.nextArg.value.name) + s.input
    decreases |s.input|
  {
    if s.input != [] {
      var name := s.nextArg.value.name;
      var s1 := VariadicAdvance(ctx, s);
      VariadicCollects(ctx, s1);
      HeldChain(Held(s.args, name), s.input, Held(s1.args, name), s1.input, Held(Run(ctx, s1).state.args, name));
    }
  }

  lemma HeldChain(h0: seq<string>, input: seq<string>, h1: seq<string>, rest: seq<string>, h2: seq<string>)
    requires input != [] && rest == input[1..]
    requires h1 == h0 + [input[0]] && h2 == h1 + rest
    ensures h2 == h0 + input
  {
    assert input == [input[0]] + rest;
  }

  /** Words that are neither flags nor the restart token. */
  predicate PlainWords(ctx: Ctx, ws: seq<string>) {
    forall i :: 0 <= i < |ws| ==> !StartsWith(ws[i], "-") && ctx.cmd.restartToken != Some(ws[i])
  }

  /** A step that goes on leaves the rest of the scan to the new state. */
  lemma RunNext(ctx: Ctx, s: Scan, s1: Scan)
    requires s.input != [] && Step(ctx, s) == Next(s1)
    ensures Run(ctx, s) == Run(ctx, s1)
  {
  }

  /** One step of the above: the first word is appended. */
  lemma VariadicStep(ctx: Ctx, s: Scan) returns (s1: Scan)
    requires s.input != [] && PlainWords(ctx, s.input)
    requires s.awaiting == [] && s.nextArg.Some? && s.nextArg.value.variadic
    requires s.nextArg.value.varMax.None? && s.nextArg.value.choices.None?
    requires Get(s.args, s.nextArg.value.name).None? || Get(s.args, s.nextArg.value.name).value.value.MultiString?
    ensures Step(ctx, s) == Next(s1) && s1.input == s.input[1..] && s1.awaiting == [] && s1.nextArg == s.nextArg
    ensures Get(s1.args, s.nextArg.value.name).Some? && Get(s1.args, s.nextArg.value.name).value.value.MultiString?
    ensures Held(s1.args, s.nextArg.value.name) == Held(s.args, s.nextArg.value.name) + [s.input[0]]
  {
    PlainStep(ctx, s);
    s1 := VariadicPush(ctx, s.(input := s.input[1..]), s.input[0]);
  }

  /** A word that is neither a flag nor the restart token, with no flag
      waiting, is a positional word. */
  lemma PlainStep(ctx: Ctx, s: Scan)
    requires s.input != [] && PlainWords(ctx, s.input) && s.awaiting == []
    ensures Step(ctx, s) == Positional(ctx, s.(input := s.input[1..]), s.input[0])
  {
    var w := s.input[0];
    assert !StartsWith(w, "-");
    assert w != "--" by {
      assert "--"[..1] == "-";
    }
  }

  /** A positional word for a variadic argument with no maximum and no
      choices is appended to it. */
  lemma VariadicPush(ctx: Ctx, s: Scan, w: string) returns (s1: Scan)
    requires s.nextArg.Some? && s.nextArg.value.variadic
    requires s.nextArg.value.varMax.None? && s.nextArg.value.choices.None?
    requires Get(s.args, s.nextArg.value.name).None? || Get(s.args, s.nextArg.value.name).value.value.MultiString?
    ensures Positional(ctx, s, w) == Next(s1) && s1.input == s.input && s1.awaiting == s.awaiting && s1.nextArg == s.nextArg
    ensures Get(s1.args, s.nextArg.value.name).Some? && Get(s1.args, s.nextArg.value.name).value.value.MultiString?
    ensures Held(s1.args, s.nextArg.value.name) == Held(s.args, s.nextArg.value.name) + [w]
  {
    var arg := s.nextArg.value;
    var p := PushString(s.args, arg.name, arg, w).value;
    PushStringGet(s.args, arg.name, arg, w);
    s1 := s.(args := p.entries);
  }

  /** The above, stated for the rest of the scan. */
  lemma VariadicAdvance(ctx: Ctx, s: Scan) returns (s1: Scan)
    requires s.input != [] && PlainWords(ctx, s.input)
    requires s.awaiting == [] && s.nextArg.Some? && s.nextArg.value.variadic
    requires s.nextArg.value.varMax.None? && s.nextArg.value.choices.None?
    requires Get(s.args, s.nextArg.value.name).None? || Get(s.args, s.nextArg.value.name).value.value.MultiString?
    ensures Run(ctx, s) == Run(ctx, s1) && s1.input == s.input[1..] && s1.awaiting == [] && s1.nextArg == s.nextArg
    ensures PlainWords(ctx, s1.input)
    ensures Get(s1.args, s.nextArg.value.name).Some? && Get(s1.args, s.nextArg.value.name).value.value.MultiString?
    ensures Held(s1.args, s.nextArg.value.name) == Held(s.args, s.nextArg.value.name) + [s.input[0]]
  {
    s1 := VariadicStep(ctx, s);
    RunNext(ctx, s, s1);
    PlainTail(ctx, s.input);
  }

  lemma PlainTail(ctx: Ctx, ws: seq<string>)
    requires ws != [] && PlainWords(ctx, ws)
    ensures PlainWords(ctx, ws[1..])
  {
    assert forall i :: 0 <= i < |ws| - 1 ==> ws[1..][i] == ws[i + 1];
  }
}
