/** Commands of the usage library (lib/src/spec/cmd.rs): the one-line usage
    of a command, merging a command declared twice, the depth-first list of
    subcommands and the lookup of a subcommand by name or alias. */
module SpecCommands {
  import opened Wrappers
  import opened Strings
  import opened UsageSpec
  import opened SpecArgs
  import opened SpecFlags

  /** `is_empty`: no arguments, flags, mounts or subcommands. */
  predicate IsEmpty(c: Command) {
    c.args == [] && c.flags == [] && c.mounts == [] && c.subcommands == []
  }

  // ---------------------------------------------------------------------
  // Usage
  // ---------------------------------------------------------------------

  /** The flags that are not hidden, in order. */
  function VisibleFlags(fs: seq<Flag>): (r: seq<Flag>)
    ensures |r| <= |fs|
    ensures forall f :: f in r <==> f in fs && !f.hide
  {
    if fs == [] then [] else (if fs[0].hide then [] else [fs[0]]) + VisibleFlags(fs[1..])
  }

  /** The arguments that are not hidden, in order. */
  function VisibleArgs(args: seq<Arg>): (r: seq<Arg>)
    ensures |r| <= |args|
    ensures forall a :: a in r <==> a in args && !a.hide
  {
    if args == [] then [] else (if args[0].hide then [] else [args[0]]) + VisibleArgs(args[1..])
  }

  /** Filtering twice is filtering once. */
  lemma {:induction false} VisibleFlagsTwice(fs: seq<Flag>)
    ensures VisibleFlags(VisibleFlags(fs)) == VisibleFlags(fs)
    decreases |fs|
  {
    if fs != [] {
      VisibleFlagsTwice(fs[1..]);
      var rest := VisibleFlags(fs[1..]);
      if fs[0].hide {
        assert VisibleFlags(fs) == rest;
      } else {
        var v := [fs[0]] + rest;
        assert VisibleFlags(fs) == v;
        assert v[0] == fs[0] && v[1..] == rest;
        assert VisibleFlags(v) == [fs[0]] + VisibleFlags(rest);
      }
    }
  }

  lemma {:induction false} VisibleArgsTwice(args: seq<Arg>)
    ensures VisibleArgs(VisibleArgs(args)) == VisibleArgs(args)
    decreases |args|
  {
    if args != [] {
      VisibleArgsTwice(args[1..]);
      var rest := VisibleArgs(args[1..]);
      if args[0].hide {
        assert VisibleArgs(args) == rest;
      } else {
        var v := [args[0]] + rest;
        assert VisibleArgs(args) == v;
        assert v[0] == args[0] && v[1..] == rest;
        assert VisibleArgs(v) == [args[0]] + VisibleArgs(rest);
      }
    }
  }

  /** An inlined flag: its usage in `<>` when required, `[]` otherwise. */
  function Bracketed(f: Flag): string {
    if f.required then "<" + FlagUsage(f) + ">" else "[" + FlagUsage(f) + "]"
  }

  function FlagInlines(fs: seq<Flag>): (r: seq<string>)
    ensures |r| == |fs|
    ensures forall k :: 0 <= k < |fs| ==> r[k] == Bracketed(fs[k])
  {
    if fs == [] then [] else [Bracketed(fs[0])] + FlagInlines(fs[1..])
  }

  function ArgInlines(args: seq<Arg>): (r: seq<string>)
    ensures |r| == |args|
    ensures forall k :: 0 <= k < |args| ==> r[k] == ArgUsage(args[k])
  {
    if args == [] then [] else [ArgUsage(args[0])] + ArgInlines(args[1..])
  }

  predicate AnyRequiredFlag(fs: seq<Flag>) {
    exists k :: 0 <= k < |fs| && fs[k].required
  }

  predicate AnyRequiredArg(args: seq<Arg>) {
    exists k :: 0 <= k < |args| && args[k].required
  }

  const FlagsRequired: string := "<FLAGS>"
  const FlagsOptional: string := "[FLAGS]"
  const ArgsRequired: string := "<ARGS>" + Ellipsis
  const ArgsOptional: string := "[ARGS]" + Ellipsis
  const SubcommandWord: string := "<SUBCOMMAND>"

  /** Up to two visible flags are written out; more are summarised. */
  function WithFlags(usage: string, flags: seq<Flag>): string {
    if flags == [] then usage
    else if |flags| <= 2 then Trim(usage + " " + Join(FlagInlines(flags), " "))
    else if AnyRequiredFlag(flags) then usage + " " + FlagsRequired
    else usage + " " + FlagsOptional
  }

  /** Up to two visible arguments are written out; more are summarised. */
  function WithArgs(usage: string, args: seq<Arg>): string {
    if args == [] then usage
    else if |args| <= 2 then Trim(usage + " " + Join(ArgInlines(args), " "))
    else if AnyRequiredArg(args) then usage + " " + ArgsRequired
    else usage + " " + ArgsOptional
  }

  /** `SpecCommand::usage`. */
  function CmdUsage(c: Command): string {
    var u := WithArgs(WithFlags(Join(c.fullCmd, " "), VisibleFlags(c.flags)), VisibleArgs(c.args));
    Trim(if c.subcommands != [] then u + " " + SubcommandWord else u)
  }

  /** A pattern whose ends are not spaces. */
  predicate Solid(p: string) {
    p != [] && !IsSpace(p[0]) && !IsSpace(p[|p| - 1])
  }

  /** The argument step keeps what the usage already shows. */
  lemma WithArgsKeeps(u: string, args: seq<Arg>, p: string, i: int) returns (j: int)
    requires OccursAt(u, p, i) && Solid(p)
    ensures OccursAt(WithArgs(u, args), p, j)
  {
    j := i;
    if args != [] {
      var tail := if |args| <= 2 then Join(ArgInlines(args), " ")
        else if AnyRequiredArg(args) then ArgsRequired else ArgsOptional;
      OccursAtAppend(u, " " + tail, p, i);
      assert u + " " + tail == u + (" " + tail);
      if |args| <= 2 {
        j := TrimKeeps(u + " " + tail, p, i);
      }
    }
  }

  /** The last step, the subcommand placeholder and the final trim, keeps
      what the usage already shows. */
  lemma FinishKeeps(u: string, hasSub: bool, p: string, i: int) returns (j: int)
    requires OccursAt(u, p, i) && Solid(p)
    ensures OccursAt(Trim(if hasSub then u + " " + SubcommandWord else u), p, j)
  {
    var v := if hasSub then u + " " + SubcommandWord else u;
    if hasSub {
      OccursAtAppend(u, " " + SubcommandWord, p, i);
      assert v == u + (" " + SubcommandWord);
    }
    j := TrimKeeps(v, p, i);
  }

  /** Writing out parts after a text and trimming keeps every part. */
  lemma InlineKeeps(u: string, parts: seq<string>, k: nat) returns (j: int)
    requires k < |parts| && Solid(parts[k])
    ensures OccursAt(Trim(u + " " + Join(parts, " ")), parts[k], j)
  {
    var inl := Join(parts, " ");
    var i := JoinOccurs(parts, " ", k);
    OccursAtAppend(inl, u + " ", parts[k], i);
    j := TrimKeeps((u + " ") + inl, parts[k], |u + " "| + i);
  }

  /** The usage neither starts nor ends with a space. */
  lemma UsageTrimmed(c: Command)
    ensures var u := CmdUsage(c); u == [] || (!IsSpace(u[0]) && !IsSpace(u[|u| - 1]))
  {
    var v := CmdUsage(c);
    var t := TrimStart(if c.subcommands != [] then WithArgs(WithFlags(Join(c.fullCmd, " "), VisibleFlags(c.flags)), VisibleArgs(c.args)) + " " + SubcommandWord
      else WithArgs(WithFlags(Join(c.fullCmd, " "), VisibleFlags(c.flags)), VisibleArgs(c.args)));
    assert v == TrimEnd(t);
    TrimEndShape(t);
    if v != [] {
      assert v[0] == t[0];
    }
  }

  /** Hidden flags and arguments play no part in the usage. */
  lemma UsageIgnoresHidden(c: Command)
    ensures CmdUsage(c) == CmdUsage(c.(flags := VisibleFlags(c.flags), args := VisibleArgs(c.args)))
  {
    VisibleFlagsTwice(c.flags);
    VisibleArgsTwice(c.args);
  }

  /** A command with subcommands ends its usage with `<SUBCOMMAND>`. */
  lemma UsageSubcommand(c: Command)
    requires c.subcommands != []
    ensures EndsWith(CmdUsage(c), SubcommandWord)
  {
    var u := WithArgs(WithFlags(Join(c.fullCmd, " "), VisibleFlags(c.flags)), VisibleArgs(c.args));
    var v := u + " " + SubcommandWord;
    assert v == (u + " ") + SubcommandWord;
    assert OccursAt(v, SubcommandWord, |u| + 1);
    var j := TrimKeeps(v, SubcommandWord, |u| + 1);
    var w := CmdUsage(c);
    assert w == Trim(v);
    assert j == |w| - |SubcommandWord|;
    assert w[|w| - |SubcommandWord|..] == w[j..j + |SubcommandWord|];
  }

  /** A summary written after a space occurs right after that space. */
  lemma SummaryOccurs(u: string, p: string)
    ensures OccursAt(u + " " + p, p, |u| + 1)
  {
    assert (u + " " + p)[|u| + 1..|u| + 1 + |p|] == p;
  }

  /** With more than two visible flags the usage shows `<FLAGS>` when one
      of them is required and `[FLAGS]` otherwise. */
  lemma UsageManyFlags(c: Command)
    requires |VisibleFlags(c.flags)| > 2
    ensures Contains(CmdUsage(c), if AnyRequiredFlag(VisibleFlags(c.flags)) then FlagsRequired else FlagsOptional)
  {
    var p := if AnyRequiredFlag(VisibleFlags(c.flags)) then FlagsRequired else FlagsOptional;
    var u0 := Join(c.fullCmd, " ");
    var u1 := WithFlags(u0, VisibleFlags(c.flags));
    assert u1 == u0 + " " + p;
    SummaryOccurs(u0, p);
    var j := WithArgsKeeps(u1, VisibleArgs(c.args), p, |u0| + 1);
    j := FinishKeeps(WithArgs(u1, VisibleArgs(c.args)), c.subcommands != [], p, j);
  }

  /** With more than two visible arguments the usage shows `<ARGS>…` when
      one of them is required and `[ARGS]…` otherwise. */
  lemma UsageManyArgs(c: Command)
    requires |VisibleArgs(c.args)| > 2
    ensures Contains(CmdUsage(c), if AnyRequiredArg(VisibleArgs(c.args)) then ArgsRequired else ArgsOptional)
  {
    var p := if AnyRequiredArg(VisibleArgs(c.args)) then ArgsRequired else ArgsOptional;
    var u1 := WithFlags(Join(c.fullCmd, " "), VisibleFlags(c.flags));
    var u2 := WithArgs(u1, VisibleArgs(c.args));
    assert u2 == u1 + " " + p;
    SummaryOccurs(u1, p);
    var j := FinishKeeps(u2, c.subcommands != [], p, |u1| + 1);
  }

  /** With one or two visible flags, each is written out in brackets. */
  lemma UsageInlineFlag(c: Command, k: nat)
    requires 0 < |VisibleFlags(c.flags)| <= 2 && k < |VisibleFlags(c.flags)|
    ensures Contains(CmdUsage(c), Bracketed(VisibleFlags(c.flags)[k]))
  {
    var fs := VisibleFlags(c.flags);
    var p := Bracketed(fs[k]);
    var u0 := Join(c.fullCmd, " ");
    assert FlagInlines(fs)[k] == p;
    var j := InlineKeeps(u0, FlagInlines(fs), k);
    j := WithArgsKeeps(WithFlags(u0, fs), VisibleArgs(c.args), p, j);
    j := FinishKeeps(WithArgs(WithFlags(u0, fs), VisibleArgs(c.args)), c.subcommands != [], p, j);
  }

  /** An argument's usage starts with a bracket and ends with a bracket or
      an ellipsis. */
  lemma ArgUsageSolid(a: Arg)
    ensures Solid(ArgUsage(a))
  {
    var b := UsageBody(a);
    assert b[0] in "<[" && b[|b| - 1] in ">]";
    if a.variadic {
      assert ArgUsage(a)[0] == b[0];
    }
  }

  /** With one or two visible arguments, each one's usage is written out. */
  lemma UsageInlineArg(c: Command, k: nat)
    requires 0 < |VisibleArgs(c.args)| <= 2 && k < |VisibleArgs(c.args)|
    ensures Contains(CmdUsage(c), ArgUsage(VisibleArgs(c.args)[k]))
  {
    var args := VisibleArgs(c.args);
    var p := ArgUsage(args[k]);
    ArgUsageSolid(args[k]);
    var u1 := WithFlags(Join(c.fullCmd, " "), VisibleFlags(c.flags));
    assert ArgInlines(args)[k] == p;
    var j := InlineKeeps(u1, ArgInlines(args), k);
    j := FinishKeeps(WithArgs(u1, args), c.subcommands != [], p, j);
  }

  /** A command with nothing to show is just its full name. */
  lemma UsageOfEmpty(c: Command)
    requires IsEmpty(c)
    ensures CmdUsage(c) == Trim(Join(c.fullCmd, " "))
  {
  }

  // ---------------------------------------------------------------------
  // Ordered-map insertion of many entries
  // ---------------------------------------------------------------------

  /** Inserting every entry of `os`, in order, into `es`. */
  function InsertAll<V>(es: seq<Entry<V>>, os: seq<Entry<V>>): seq<Entry<V>>
    decreases |os|
  {
    if os == [] then es
    else UsageSpec.Insert(InsertAll(es, os[..|os| - 1]), os[|os| - 1].key, os[|os| - 1].value)
  }

  /** The value of the last entry with a key. */
  function LastGet<V>(os: seq<Entry<V>>, k: string): (r: Option<V>)
    ensures r.Some? <==> exists i :: 0 <= i < |os| && os[i].key == k
    decreases |os|
  {
    if os == [] then None
    else if os[|os| - 1].key == k then Some(os[|os| - 1].value)
    else LastGet(os[..|os| - 1], k)
  }

  /** After inserting many entries, a key holds the value of its last
      inserted entry, or its old value when none was inserted. */
  lemma {:induction false} InsertAllGet<V>(es: seq<Entry<V>>, os: seq<Entry<V>>, k: string)
    ensures Get(InsertAll(es, os), k) == LastGet(os, k).Or(Get(es, k))
    decreases |os|
  {
    if os != [] {
      var init := os[..|os| - 1];
      var e := os[|os| - 1];
      InsertAllGet(es, init, k);
      if e.key == k {
        InsertGet(InsertAll(es, init), k, e.value);
      } else {
        InsertOther(InsertAll(es, init), e.key, e.value, k);
      }
    }
  }

  /** With unique keys, the last entry with a key is the only one. */
  lemma {:induction false} LastGetUnique<V>(os: seq<Entry<V>>, k: string)
    requires UniqueKeys(os)
    ensures LastGet(os, k) == Get(os, k)
    decreases |os|
  {
    if os != [] {
      var init := os[..|os| - 1];
      LastGetUnique(init, k);
      if os[|os| - 1].key == k {
        IndexOfFirst(os, k, |os| - 1);
      } else {
        match IndexOf(init, k)
        case None =>
        case Some(j) => IndexOfFirst(os, k, j);
      }
    }
  }

  /** Inserting keeps the existing entries' keys where they were and adds
      at least one entry for a non-empty insertion. */
  lemma {:induction false} InsertAllKeeps<V>(es: seq<Entry<V>>, os: seq<Entry<V>>)
    ensures |InsertAll(es, os)| >= |es|
    ensures os != [] ==> InsertAll(es, os) != []
    ensures forall i :: 0 <= i < |es| ==> InsertAll(es, os)[i].key == es[i].key
    decreases |os|
  {
    if os != [] {
      InsertAllKeeps(es, os[..|os| - 1]);
    }
  }

  /** Inserting keeps the keys unique. */
  lemma {:induction false} InsertAllUnique<V>(es: seq<Entry<V>>, os: seq<Entry<V>>)
    requires UniqueKeys(es)
    ensures UniqueKeys(InsertAll(es, os))
    decreases |os|
  {
    if os != [] {
      InsertAllUnique(es, os[..|os| - 1]);
      InsertUnique(InsertAll(es, os[..|os| - 1]), os[|os| - 1].key, os[|os| - 1].value);
    }
  }

  // ---------------------------------------------------------------------
  // Merge
  // ---------------------------------------------------------------------

  /** What `merge` leaves in `a` when `b` is merged into it: the name, the
      texts and the lists `b` provides replace `a`'s, `hide` and
      `subcommand_required` are always `b`'s, and `b`'s subcommands and
      completions are inserted into `a`'s. */
  function MergeCmd(a: Command, b: Command): Command {
    a.(name := if |b.name| > 0 then b.name else a.name,
       help := b.help.Or(a.help),
       helpLong := b.helpLong.Or(a.helpLong),
       helpMd := b.helpMd.Or(a.helpMd),
       beforeHelp := b.beforeHelp.Or(a.beforeHelp),
       beforeHelpLong := b.beforeHelpLong.Or(a.beforeHelpLong),
       beforeHelpMd := b.beforeHelpMd.Or(a.beforeHelpMd),
       afterHelp := b.afterHelp.Or(a.afterHelp),
       afterHelpLong := b.afterHelpLong.Or(a.afterHelpLong),
       afterHelpMd := b.afterHelpMd.Or(a.afterHelpMd),
       args := if |b.args| > 0 then b.args else a.args,
       flags := if |b.flags| > 0 then b.flags else a.flags,
       mounts := if |b.mounts| > 0 then b.mounts else a.mounts,
       aliases := if |b.aliases| > 0 then b.aliases else a.aliases,
       hiddenAliases := if |b.hiddenAliases| > 0 then b.hiddenAliases else a.hiddenAliases,
       examples := if |b.examples| > 0 then b.examples else a.examples,
       hide := b.hide,
       subcommandRequired := b.subcommandRequired,
       subcommands := InsertAll(a.subcommands, b.subcommands),
       complete := InsertAll(a.complete, b.complete))
  }

  /** One `if other.x.is_some() { self.x = other.x }` step of `merge`. */
  method KeepOption<T>(cur: Option<T>, given: Option<T>) returns (r: Option<T>)
    ensures given.Some? ==> r == given
    ensures given.None? ==> r == cur
  {
    r := cur;
    if given.Some? { r := given; }
  }

  /** One `if !other.x.is_empty() { self.x = other.x }` step of `merge`. */
  method KeepList<T>(cur: seq<T>, given: seq<T>) returns (r: seq<T>)
    ensures |given| > 0 ==> r == given
    ensures |given| == 0 ==> r == cur
  {
    r := cur;
    if |given| > 0 { r := given; }
  }

  /** Inserting entries one at a time. */
  method InsertEach<V>(es: seq<Entry<V>>, os: seq<Entry<V>>) returns (r: seq<Entry<V>>)
    ensures r == InsertAll(es, os)
  {
    r := es;
    for i := 0 to |os|
      invariant r == InsertAll(es, os[..i])
    {
      assert os[..i + 1][..i] == os[..i];
      r := UsageSpec.Insert(r, os[i].key, os[i].value);
    }
    assert os[..|os|] == os;
  }

  /** `SpecCommand::merge`, step by step. */
  method Merge(self: Command, other: Command) returns (r: Command)
    ensures r == MergeCmd(self, other)
  {
    var name := KeepList(self.name, other.name);
    var help := KeepOption(self.help, other.help);
    var helpLong := KeepOption(self.helpLong, other.helpLong);
    var helpMd := KeepOption(self.helpMd, other.helpMd);
    var beforeHelp := KeepOption(self.beforeHelp, other.beforeHelp);
    var beforeHelpLong := KeepOption(self.beforeHelpLong, other.beforeHelpLong);
    var beforeHelpMd := KeepOption(self.beforeHelpMd, other.beforeHelpMd);
    var afterHelp := KeepOption(self.afterHelp, other.afterHelp);
    var afterHelpLong := KeepOption(self.afterHelpLong, other.afterHelpLong);
    var afterHelpMd := KeepOption(self.afterHelpMd, other.afterHelpMd);
    var args := KeepList(self.args, other.args);
    var flags := KeepList(self.flags, other.flags);
    var mounts := KeepList(self.mounts, other.mounts);
    var aliases := KeepList(self.aliases, other.aliases);
    var hiddenAliases := KeepList(self.hiddenAliases, other.hiddenAliases);
    var examples := KeepList(self.examples, other.examples);
    var subs := InsertEach(self.subcommands, other.subcommands);
    var comp := InsertEach(self.complete, other.complete);
    r := self.(name := name, help := help, helpLong := helpLong, helpMd := helpMd,
      beforeHelp := beforeHelp, beforeHelpLong := beforeHelpLong, beforeHelpMd := beforeHelpMd,
      afterHelp := afterHelp, afterHelpLong := afterHelpLong, afterHelpMd := afterHelpMd,
      args := args, flags := flags, mounts := mounts, aliases := aliases,
      hiddenAliases := hiddenAliases, examples := examples,
      hide := other.hide, subcommandRequired := other.subcommandRequired,
      subcommands := subs, complete := comp);
  }

  /** A command with no name, no texts and no lists, sharing `a`'s two
      flags that are always copied. */
  function Blank(a: Command): Command {
    DefaultCommand.(hide := a.hide, subcommandRequired := a.subcommandRequired)
  }

  /** Merging a command that provides nothing changes nothing. */
  lemma MergeBlank(a: Command)
    ensures MergeCmd(a, Blank(a)) == a
  {
  }

  /** What the merged command's subcommand table maps a name to: the other
      command's subcommand when it has one by that name, the first
      command's otherwise. Subcommands already present keep their place. */
  lemma MergeSubcommands(a: Command, b: Command, k: string)
    requires UniqueKeys(b.subcommands)
    ensures Get(MergeCmd(a, b).subcommands, k) == Get(b.subcommands, k).Or(Get(a.subcommands, k))
    ensures |MergeCmd(a, b).subcommands| >= |a.subcommands|
    ensures forall i :: 0 <= i < |a.subcommands| ==> MergeCmd(a, b).subcommands[i].key == a.subcommands[i].key
    ensures UniqueKeys(a.subcommands) ==> UniqueKeys(MergeCmd(a, b).subcommands)
  {
    InsertAllGet(a.subcommands, b.subcommands, k);
    LastGetUnique(b.subcommands, k);
    InsertAllKeeps(a.subcommands, b.subcommands);
    if UniqueKeys(a.subcommands) {
      InsertAllUnique(a.subcommands, b.subcommands);
    }
  }

  /** The same for completions. */
  lemma MergeCompletes(a: Command, b: Command, k: string)
    requires UniqueKeys(b.complete)
    ensures Get(MergeCmd(a, b).complete, k) == Get(b.complete, k).Or(Get(a.complete, k))
  {
    InsertAllGet(a.complete, b.complete, k);
    LastGetUnique(b.complete, k);
  }

  /** The merge is empty exactly when both commands are. */
  lemma MergeEmpty(a: Command, b: Command)
    ensures IsEmpty(MergeCmd(a, b)) <==> IsEmpty(a) && IsEmpty(b)
  {
    InsertAllKeeps(a.subcommands, b.subcommands);
  }

  // ---------------------------------------------------------------------
  // All subcommands
  // ---------------------------------------------------------------------

  /** `all_subcommands`: every descendant, depth first, each before its own
      subcommands, in declaration order. */
  function AllSubcommands(c: Command): seq<Command>
    decreases c, 1
  {
    AllOf(c.subcommands)
  }

  function AllOf(subs: seq<Entry<Command>>): seq<Command>
    decreases subs, 0
  {
    if subs == [] then [] else [subs[0].value] + AllSubcommands(subs[0].value) + AllOf(subs[1..])
  }

  /** Every subcommand of an entry list is listed, with its descendants. */
  lemma {:induction false} AllOfChildren(subs: seq<Entry<Command>>, j: nat)
    requires j < |subs|
    ensures subs[j].value in AllOf(subs)
    ensures forall d :: d in AllSubcommands(subs[j].value) ==> d in AllOf(subs)
    decreases |subs|
  {
    if j > 0 {
      AllOfChildren(subs[1..], j - 1);
    }
  }

  /** A descendant's descendants are descendants. */
  lemma {:induction false} AllTransitive(c: Command, d: Command, e: Command)
    requires d in AllSubcommands(c) && e in AllSubcommands(d)
    ensures e in AllSubcommands(c)
    decreases c, 1
  {
    AllOfTransitive(c.subcommands, d, e);
  }

  lemma {:induction false} AllOfTransitive(subs: seq<Entry<Command>>, d: Command, e: Command)
    requires d in AllOf(subs) && e in AllSubcommands(d)
    ensures e in AllOf(subs)
    decreases subs, 0
  {
    var s := subs[0].value;
    if d == s {
    } else if d in AllSubcommands(s) {
      AllTransitive(s, d, e);
    } else {
      AllOfTransitive(subs[1..], d, e);
    }
  }

  /** Each direct subcommand is listed, followed by its own descendants. */
  lemma AllChildren(c: Command, j: nat)
    requires j < |c.subcommands|
    ensures c.subcommands[j].value in AllSubcommands(c)
    ensures forall d :: d in AllSubcommands(c.subcommands[j].value) ==> d in AllSubcommands(c)
  {
    AllOfChildren(c.subcommands, j);
  }

  // ---------------------------------------------------------------------
  // Finding a subcommand
  // ---------------------------------------------------------------------

  /** Records every word of `ws` as standing for `target`. */
  function AddNames(m: map<string, string>, ws: seq<string>, target: string): (r: map<string, string>)
    ensures forall w :: w in r <==> w in m || w in ws
    ensures forall w :: w in ws ==> r[w] == target
    ensures forall w :: w in m && w !in ws ==> r[w] == m[w]
    decreases |ws|
  {
    if ws == [] then m else AddNames(m[ws[0] := target], ws[1..], target)
  }

  /** The lookup table: each subcommand's key, aliases and hidden aliases
      stand for its key, entered in declaration order so that a later
      subcommand overrides an earlier one on a shared word. */
  function Lookup(subs: seq<Entry<Command>>): map<string, string>
    decreases |subs|
  {
    if subs == [] then map[]
    else
      var e := subs[|subs| - 1];
      var m := Lookup(subs[..|subs| - 1])[e.key := e.key];
      AddNames(AddNames(m, e.value.aliases, e.key), e.value.hiddenAliases, e.key)
  }

  /** `find_subcommand`: the subcommand the word stands for. */
  function FindSubcommand(c: Command, word: string): Option<Command> {
    var table := Lookup(c.subcommands);
    if word in table then Get(c.subcommands, table[word]) else None
  }

  /** The entry's key, one of its aliases or one of its hidden aliases. */
  predicate Names(e: Entry<Command>, w: string) {
    w == e.key || w in e.value.aliases || w in e.value.hiddenAliases
  }

  /** A word is in the table exactly when some subcommand answers to it. */
  lemma {:induction false} LookupDomain(subs: seq<Entry<Command>>, w: string)
    ensures w in Lookup(subs) <==> exists i :: 0 <= i < |subs| && Names(subs[i], w)
    decreases |subs|
  {
    if subs != [] {
      var init := subs[..|subs| - 1];
      LookupDomain(init, w);
      if !Names(subs[|subs| - 1], w) {
        forall i | 0 <= i < |subs| && Names(subs[i], w) ensures exists i' :: 0 <= i' < |init| && Names(init[i'], w) {
          assert init[i] == subs[i];
        }
      }
    }
  }

  /** A word in the table stands for the key of the last subcommand that
      answers to it. */
  lemma {:induction false} LookupLast(subs: seq<Entry<Command>>, i: nat, w: string)
    requires i < |subs| && Names(subs[i], w)
    requires forall j :: i < j < |subs| ==> !Names(subs[j], w)
    ensures w in Lookup(subs) && Lookup(subs)[w] == subs[i].key
    decreases |subs|
  {
    var n := |subs| - 1;
    if i < n {
      var init := subs[..n];
      assert init[i] == subs[i];
      LookupLast(init, i, w);
      assert !Names(subs[n], w);
    }
  }

  /** Some subcommand answering to a word is the last one that does. */
  lemma LastNamer(subs: seq<Entry<Command>>, w: string) returns (i: nat)
    requires exists i :: 0 <= i < |subs| && Names(subs[i], w)
    ensures i < |subs| && Names(subs[i], w)
    ensures forall j :: i < j < |subs| ==> !Names(subs[j], w)
    decreases |subs|
  {
    var n := |subs| - 1;
    if Names(subs[n], w) {
      i := n;
    } else {
      var init := subs[..n];
      var k :| 0 <= k < |subs| && Names(subs[k], w);
      assert init[k] == subs[k];
      i := LastNamer(init, w);
      assert subs[i] == init[i];
    }
  }

  /** A subcommand is found exactly for the words some subcommand answers to. */
  lemma FindFound(c: Command, w: string)
    ensures FindSubcommand(c, w).Some? <==> exists i :: 0 <= i < |c.subcommands| && Names(c.subcommands[i], w)
  {
    LookupDomain(c.subcommands, w);
    if w in Lookup(c.subcommands) {
      var i := LastNamer(c.subcommands, w);
      LookupLast(c.subcommands, i, w);
      assert c.subcommands[i].key == Lookup(c.subcommands)[w];
    }
  }

  /** A word finds the last subcommand that answers to it by its key or by
      one of its aliases. */
  lemma FindByWord(c: Command, i: nat, w: string)
    requires UniqueKeys(c.subcommands)
    requires i < |c.subcommands| && Names(c.subcommands[i], w)
    requires forall j :: i < j < |c.subcommands| ==> !Names(c.subcommands[j], w)
    ensures FindSubcommand(c, w) == Some(c.subcommands[i].value)
  {
    var subs := c.subcommands;
    LookupLast(subs, i, w);
    IndexOfFirst(subs, subs[i].key, i);
  }
}
