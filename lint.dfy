/** The `usage lint` checks (cli/src/cli/lint.rs): a walk over the spec tree
    that appends issues to one list. Each check is a function giving the
    issues it contributes; the methods walk the tree as the linter does,
    pushing onto the list, and are proved to produce exactly those issues. */
module Lint {
  import opened Wrappers
  import opened Strings
  import opened UsageSpec

  datatype Severity = Error | Warning | Info

  /** The issue codes; `CodeName` gives the text the linter reports. */
  datatype Code =
    | MissingName | InvalidDefaultSubcommand | MissingCmdHelp | DuplicateFlagCode | FlagNoOption
    | MissingFlagHelp | DeprecatedFlag | InconsistentNaming | DuplicateArgCode | MissingArgHelp
    | RequiredAfterOptional

  function CodeName(c: Code): string {
    match c
    case MissingName => "missing-name"
    case InvalidDefaultSubcommand => "invalid-default-subcommand"
    case MissingCmdHelp => "missing-cmd-help"
    case DuplicateFlagCode => "duplicate-flag"
    case FlagNoOption => "flag-no-option"
    case MissingFlagHelp => "missing-flag-help"
    case DeprecatedFlag => "deprecated-flag"
    case InconsistentNaming => "inconsistent-naming"
    case DuplicateArgCode => "duplicate-arg"
    case MissingArgHelp => "missing-arg-help"
    case RequiredAfterOptional => "required-after-optional"
  }

  /** Where an issue points: nowhere (the spec itself), a command, or one of
      its flags or arguments; each holds the command path. */
  datatype Location = Nowhere | AtCmd(path: string) | AtFlag(path: string, flag: string) | AtArg(path: string, arg: string)

  /** An issue; its message is rendered by `Message` from the code, the
      subject it is about and one detail. */
  datatype Issue = Issue(severity: Severity, code: Code, subject: string, detail: string, location: Location)

  /** The location as the linter prints it. */
  function LocationText(l: Location): Option<string> {
    match l
    case Nowhere => None
    case AtCmd(p) => Some("cmd " + p)
    case AtFlag(p, n) => Some("cmd " + p + " flag " + n)
    case AtArg(p, n) => Some("cmd " + p + " arg " + n)
  }

  /** The message text of each issue, as the linter formats it. */
  function Message(x: Issue): string {
    match x.code
    case MissingName => "Spec has no name or bin defined"
    case InvalidDefaultSubcommand => "default_subcommand '" + x.subject + "' does not exist (" + x.detail + ")"
    case MissingCmdHelp => "Command has no help text"
    case DuplicateFlagCode => "Flag '" + x.subject + "' is defined multiple times (also defined as '" + x.detail + "')"
    case FlagNoOption => "Flag '" + x.subject + "' has no short or long option"
    case MissingFlagHelp => "Flag '" + x.subject + "' has no help text"
    case DeprecatedFlag => "Flag '" + x.subject + "' is deprecated: " + x.detail
    case InconsistentNaming =>
      if x.location.AtArg? then "Argument '" + x.subject + "' mixes underscores and hyphens"
      else "Flag '--" + x.subject + "' mixes underscores and hyphens"
    case DuplicateArgCode => "Argument '" + x.subject + "' is defined multiple times"
    case MissingArgHelp => "Argument '" + x.subject + "' has no help text"
    case RequiredAfterOptional => "Required argument '" + x.subject + "' appears after optional arguments"
  }

  /** The codes a command walk can report: all but the two spec-level ones. */
  predicate CommandCode(c: Code) {
    !c.MissingName? && !c.InvalidDefaultSubcommand?
  }

  /** One issue when the condition holds, none otherwise. */
  function When(b: bool, x: Issue): seq<Issue> {
    if b then [x] else []
  }

  /** The issues carrying one code, in order. */
  function WithCode(issues: seq<Issue>, code: Code): seq<Issue> {
    if issues == [] then []
    else WithCode(issues[..|issues| - 1], code) + When(issues[|issues| - 1].code == code, issues[|issues| - 1])
  }

  lemma {:induction false} WithCodeAppend(a: seq<Issue>, b: seq<Issue>, code: Code)
    ensures WithCode(a + b, code) == WithCode(a, code) + WithCode(b, code)
  {
    if b == [] {
      assert a + b == a;
    } else {
      WithCodeAppend(a, b[..|b| - 1], code);
      assert (a + b)[..|a + b| - 1] == a + b[..|b| - 1];
    }
  }

  lemma WithCodeWhen(b: bool, x: Issue, code: Code)
    ensures WithCode(When(b, x), code) == When(b && x.code == code, x)
  {
    if b {
      assert [x][..0] == [];
    }
  }

  /** No issue carries the code, so filtering by it leaves nothing. */
  lemma {:induction false} WithCodeNone(issues: seq<Issue>, code: Code)
    requires forall x :: x in issues ==> x.code != code
    ensures WithCode(issues, code) == []
  {
    if issues != [] {
      assert issues[|issues| - 1] in issues;
      WithCodeNone(issues[..|issues| - 1], code);
    }
  }

  /** A name that mixes snake_case and kebab-case. */
  predicate Mixes(s: string) {
    '_' in s && '-' in s
  }

  /** The path shown in locations: the ancestors and the command, space-joined. */
  function CmdPath(path: seq<string>, name: string): string {
    if path == [] then name else Join(path, " ") + " " + name
  }

  // ---------------------------------------------------------------------
  // Flags and arguments
  // ---------------------------------------------------------------------

  function FlagLocation(f: Flag, p: string): Location {
    AtFlag(p, f.name)
  }

  function NamingIssue(f: Flag, long: string, p: string): Issue {
    Issue(Warning, InconsistentNaming, long, "", FlagLocation(f, p))
  }

  function NoOptionIssue(f: Flag, p: string): Issue {
    Issue(Error, FlagNoOption, f.name, "", FlagLocation(f, p))
  }

  function FlagHelpIssue(f: Flag, p: string): Issue {
    Issue(Info, MissingFlagHelp, f.name, "", FlagLocation(f, p))
  }

  function DeprecatedIssue(f: Flag, why: string, p: string): Issue {
    Issue(Info, DeprecatedFlag, f.name, why, FlagLocation(f, p))
  }

  /** One inconsistent-naming warning per long name that mixes separators,
      in the order of the long names. */
  function NamingIssues(f: Flag, longs: seq<string>, p: string): seq<Issue> {
    if longs == [] then []
    else
      var l := longs[|longs| - 1];
      NamingIssues(f, longs[..|longs| - 1], p) + When(Mixes(l), NamingIssue(f, l, p))
  }

  /** A naming warning is reported for exactly the long names that mix
      separators. */
  lemma {:induction false} NamingSpec(f: Flag, longs: seq<string>, p: string)
    ensures forall x :: x in NamingIssues(f, longs, p) ==> exists l :: l in longs && Mixes(l) && x == NamingIssue(f, l, p)
    ensures forall l :: l in longs && Mixes(l) ==> NamingIssue(f, l, p) in NamingIssues(f, longs, p)
  {
    if longs != [] {
      NamingSpec(f, longs[..|longs| - 1], p);
      assert longs == longs[..|longs| - 1] + [longs[|longs| - 1]];
    }
  }

  lemma NamingStep(f: Flag, longs: seq<string>, j: nat, p: string, pre: seq<Issue>)
    requires j < |longs|
    ensures pre + NamingIssues(f, longs[..j + 1], p) ==
      pre + NamingIssues(f, longs[..j], p) + When(Mixes(longs[j]), NamingIssue(f, longs[j], p))
  {
    assert longs[..j + 1][..j] == longs[..j];
  }

  /** Naming warnings carry only their own code, so filtering by it keeps
      them all and filtering by any other code keeps none. */
  lemma {:induction false} NamingFilter(f: Flag, longs: seq<string>, p: string, c: Code)
    ensures WithCode(NamingIssues(f, longs, p), c) == if c == InconsistentNaming then NamingIssues(f, longs, p) else []
  {
    if longs != [] {
      var l := longs[|longs| - 1];
      NamingFilter(f, longs[..|longs| - 1], p, c);
      WithCodeAppend(NamingIssues(f, longs[..|longs| - 1], p), When(Mixes(l), NamingIssue(f, l, p)), c);
      WithCodeWhen(Mixes(l), NamingIssue(f, l, p), c);
    }
  }

  /** The checks of `lint_flag` that do not loop. */
  function FlagHeadIssues(f: Flag, p: string): seq<Issue> {
    When(f.short == [] && f.long == [], NoOptionIssue(f, p))
    + When(f.help.None? && !f.hide, FlagHelpIssue(f, p))
    + When(f.deprecated.Some?, DeprecatedIssue(f, if f.deprecated.Some? then f.deprecated.value else "", p))
  }

  /** `lint_flag`: no option, missing help, deprecation, naming. */
  function FlagIssues(f: Flag, p: string): seq<Issue> {
    FlagHeadIssues(f, p) + NamingIssues(f, f.long, p)
  }

  /** Filtering `lint_flag`'s issues by code: flag-no-option (an error)
      exactly when the flag has no short and no long name, missing-flag-help
      (an info) exactly when it is shown and has no help, deprecated-flag
      (an info) exactly when it is deprecated, and the naming warnings of its
      long names; no other code. */
  lemma FlagFilter(f: Flag, p: string, c: Code)
    ensures WithCode(FlagIssues(f, p), c) ==
      When(f.short == [] && f.long == [] && c == FlagNoOption, NoOptionIssue(f, p))
      + When(f.help.None? && !f.hide && c == MissingFlagHelp, FlagHelpIssue(f, p))
      + When(f.deprecated.Some? && c == DeprecatedFlag, DeprecatedIssue(f, if f.deprecated.Some? then f.deprecated.value else "", p))
      + (if c == InconsistentNaming then NamingIssues(f, f.long, p) else [])
  {
    var x1, x2, x3 := NoOptionIssue(f, p), FlagHelpIssue(f, p), DeprecatedIssue(f, if f.deprecated.Some? then f.deprecated.value else "", p);
    var b1, b2, b3 := f.short == [] && f.long == [], f.help.None? && !f.hide, f.deprecated.Some?;
    WithCodeAppend(FlagHeadIssues(f, p), NamingIssues(f, f.long, p), c);
    WithCodeWhens(b1, x1, b2, x2, b3, x3, c);
    assert (b1 && x1.code == c) == (b1 && c == FlagNoOption);
    assert (b2 && x2.code == c) == (b2 && c == MissingFlagHelp);
    assert (b3 && x3.code == c) == (b3 && c == DeprecatedFlag);
    NamingFilter(f, f.long, p, c);
  }

  /** Filtering three optional issues filters each of them. */
  lemma WithCodeWhens(b1: bool, x1: Issue, b2: bool, x2: Issue, b3: bool, x3: Issue, c: Code)
    ensures WithCode(When(b1, x1) + When(b2, x2) + When(b3, x3), c) ==
      When(b1 && x1.code == c, x1) + When(b2 && x2.code == c, x2) + When(b3 && x3.code == c, x3)
  {
    WithCodeAppend(When(b1, x1) + When(b2, x2), When(b3, x3), c);
    WithCodeAppend(When(b1, x1), When(b2, x2), c);
    WithCodeWhen(b1, x1, c);
    WithCodeWhen(b2, x2, c);
    WithCodeWhen(b3, x3, c);
  }

  /** `lint_flag` reports only command-level codes. */
  lemma FlagCodes(f: Flag, p: string)
    ensures forall x :: x in FlagIssues(f, p) ==> CommandCode(x.code)
  {
    NamingCodes(f, f.long, p);
  }

  lemma {:induction false} NamingCodes(f: Flag, longs: seq<string>, p: string)
    ensures forall x :: x in NamingIssues(f, longs, p) ==> x.code == InconsistentNaming && x.severity == Warning
  {
    if longs != [] {
      NamingCodes(f, longs[..|longs| - 1], p);
    }
  }

  function ArgLocation(a: Arg, p: string): Location {
    AtArg(p, a.name)
  }

  function ArgHelpIssue(a: Arg, p: string): Issue {
    Issue(Info, MissingArgHelp, a.name, "", ArgLocation(a, p))
  }

  function ArgNamingIssue(a: Arg, p: string): Issue {
    Issue(Warning, InconsistentNaming, a.name, "", ArgLocation(a, p))
  }

  /** `lint_arg`: missing help and naming. */
  function ArgIssues(a: Arg, p: string): seq<Issue> {
    When(a.help.None? && !a.hide, ArgHelpIssue(a, p)) + When(Mixes(a.name), ArgNamingIssue(a, p))
  }

  /** Filtering `lint_arg`'s issues by code: missing-arg-help (an info)
      exactly when the argument is shown and has no help,
      inconsistent-naming (a warning) exactly when its name mixes `_` and
      `-`; no other code. */
  lemma ArgFilter(a: Arg, p: string, c: Code)
    ensures WithCode(ArgIssues(a, p), c) ==
      When(a.help.None? && !a.hide && c == MissingArgHelp, ArgHelpIssue(a, p))
      + When(Mixes(a.name) && c == InconsistentNaming, ArgNamingIssue(a, p))
  {
    WithCodeAppend(When(a.help.None? && !a.hide, ArgHelpIssue(a, p)), When(Mixes(a.name), ArgNamingIssue(a, p)), c);
    WithCodeWhen(a.help.None? && !a.hide, ArgHelpIssue(a, p), c);
    WithCodeWhen(Mixes(a.name), ArgNamingIssue(a, p), c);
  }

  /** The per-flag issues of every flag, in order. */
  function FlagsIssues(flags: seq<Flag>, p: string): seq<Issue> {
    if flags == [] then [] else FlagsIssues(flags[..|flags| - 1], p) + FlagIssues(flags[|flags| - 1], p)
  }

  /** Every flag's own issues appear among the command's flag issues. */
  lemma {:induction false} FlagsLinted(flags: seq<Flag>, p: string, k: nat, x: Issue)
    requires k < |flags| && x in FlagIssues(flags[k], p)
    ensures x in FlagsIssues(flags, p)
  {
    if k < |flags| - 1 {
      FlagsLinted(flags[..|flags| - 1], p, k, x);
    }
  }

  /** The per-argument issues of every argument, in order. */
  function ArgsIssues(args: seq<Arg>, p: string): seq<Issue> {
    if args == [] then [] else ArgsIssues(args[..|args| - 1], p) + ArgIssues(args[|args| - 1], p)
  }

  /** Every argument's own issues appear among the command's argument issues. */
  lemma {:induction false} ArgsLinted(args: seq<Arg>, p: string, k: nat, x: Issue)
    requires k < |args| && x in ArgIssues(args[k], p)
    ensures x in ArgsIssues(args, p)
  {
    if k < |args| - 1 {
      ArgsLinted(args[..|args| - 1], p, k, x);
    }
  }

  // ---------------------------------------------------------------------
  // Duplicate flag keys
  // ---------------------------------------------------------------------

  /** The keys a flag registers for its long names, `--x`. */
  function LongKeys(longs: seq<string>, f: Flag): (r: seq<Entry<Flag>>)
    ensures |r| == |longs|
    ensures forall i :: 0 <= i < |longs| ==> r[i] == Entry("--" + longs[i], f)
  {
    if longs == [] then [] else LongKeys(longs[..|longs| - 1], f) + [Entry("--" + longs[|longs| - 1], f)]
  }

  /** The keys a flag registers for its short names, `-c`. */
  function ShortKeys(shorts: seq<char>, f: Flag): (r: seq<Entry<Flag>>)
    ensures |r| == |shorts|
    ensures forall i :: 0 <= i < |shorts| ==> r[i] == Entry("-" + [shorts[i]], f)
  {
    if shorts == [] then [] else ShortKeys(shorts[..|shorts| - 1], f) + [Entry("-" + [shorts[|shorts| - 1]], f)]
  }

  /** The keys one flag registers: its long keys, then its short keys. */
  function FlagKeysOf(f: Flag): seq<Entry<Flag>> {
    LongKeys(f.long, f) + ShortKeys(f.short, f)
  }

  /** Every key of every flag in the order the linter visits them. */
  function FlagKeys(flags: seq<Flag>): seq<Entry<Flag>> {
    if flags == [] then [] else FlagKeys(flags[..|flags| - 1]) + FlagKeysOf(flags[|flags| - 1])
  }

  /** The `seen_flags` table after visiting the keys: a key keeps the flag
      that registered it first. */
  function Seen(keys: seq<Entry<Flag>>): map<string, Flag> {
    if keys == [] then map[]
    else
      var m := Seen(keys[..|keys| - 1]);
      var e := keys[|keys| - 1];
      if e.key in m then m else m[e.key := e.value]
  }

  function DuplicateFlag(key: string, existing: Flag, p: string): Issue {
    Issue(Error, DuplicateFlagCode, key, existing.name, AtCmd(p))
  }

  /** The duplicate-flag errors: one for each key already in the table. */
  function DupFlagIssues(keys: seq<Entry<Flag>>, p: string): seq<Issue> {
    if keys == [] then []
    else
      var m := Seen(keys[..|keys| - 1]);
      var e := keys[|keys| - 1];
      DupFlagIssues(keys[..|keys| - 1], p) + if e.key in m then [DuplicateFlag(e.key, m[e.key], p)] else []
  }

  lemma {:induction false} DupFlagCodes(keys: seq<Entry<Flag>>, p: string)
    ensures forall x :: x in DupFlagIssues(keys, p) ==> x.severity == Error && x.code == DuplicateFlagCode && x.location == AtCmd(p)
  {
    if keys != [] {
      DupFlagCodes(keys[..|keys| - 1], p);
    }
  }

  /** Visiting one more key. */
  lemma KeyStep(keys: seq<Entry<Flag>>, e: Entry<Flag>, p: string, pre: seq<Issue>)
    ensures Seen(keys + [e]) == if e.key in Seen(keys) then Seen(keys) else Seen(keys)[e.key := e.value]
    ensures pre + DupFlagIssues(keys + [e], p) ==
      pre + DupFlagIssues(keys, p) + if e.key in Seen(keys) then [DuplicateFlag(e.key, Seen(keys)[e.key], p)] else []
  {
    assert (keys + [e])[..|keys|] == keys;
  }

  /** `get` on an ordered map after appending an entry. */
  lemma {:induction false} GetAppend<V>(es: seq<Entry<V>>, e: Entry<V>, k: string)
    ensures Get(es + [e], k) == if Get(es, k).Some? then Get(es, k) else if e.key == k then Some(e.value) else None
  {
    match IndexOf(es, k)
    case Some(i) =>
      IndexOfFirst(es + [e], k, i);
    case None =>
      if e.key == k {
        IndexOfFirst(es + [e], k, |es|);
      } else {
        assert forall i :: 0 <= i < |es + [e]| ==> (es + [e])[i].key != k;
      }
  }

  /** The table holds, for each key, the flag of its first occurrence. */
  lemma {:induction false} SeenFirst(keys: seq<Entry<Flag>>)
    ensures forall k :: (k in Seen(keys) <==> Get(keys, k).Some?)
    ensures forall k :: k in Seen(keys) ==> Seen(keys)[k] == Get(keys, k).value
  {
    if keys != [] {
      var init := keys[..|keys| - 1];
      var e := keys[|keys| - 1];
      assert keys == init + [e];
      SeenFirst(init);
      forall k ensures Get(keys, k) == if Get(init, k).Some? then Get(init, k) else if e.key == k then Some(e.value) else None {
        GetAppend(init, e, k);
      }
    }
  }

  /** Each repeated occurrence of a key is one error: the errors and the
      distinct keys together account for every key. */
  lemma {:induction false} DupFlagCount(keys: seq<Entry<Flag>>, p: string)
    ensures |DupFlagIssues(keys, p)| + |Seen(keys)| == |keys|
  {
    if keys != [] {
      DupFlagCount(keys[..|keys| - 1], p);
    }
  }

  /** No duplicate-flag error exactly when no key repeats. */
  lemma {:induction false} DupFlagNone(keys: seq<Entry<Flag>>, p: string)
    ensures DupFlagIssues(keys, p) == [] <==> UniqueKeys(keys)
  {
    if keys != [] {
      var init := keys[..|keys| - 1];
      var e := keys[|keys| - 1];
      DupFlagNone(init, p);
      SeenFirst(init);
      if e.key in Seen(init) {
        var i :| 0 <= i < |init| && init[i].key == e.key;
        assert keys[i].key == keys[|keys| - 1].key;
      } else {
        assert forall i :: 0 <= i < |init| ==> init[i].key != e.key;
        assert forall i :: 0 <= i < |init| ==> keys[i] == init[i];
      }
    }
  }

  /** The error for a repeated key names the flag that defined it first. */
  lemma {:induction false} DupFlagNamesFirst(keys: seq<Entry<Flag>>, p: string, x: Issue)
    requires x in DupFlagIssues(keys, p)
    ensures exists i :: (0 <= i < |keys| && IndexOf(keys, keys[i].key) != Some(i) &&
                         x == DuplicateFlag(keys[i].key, Get(keys, keys[i].key).value, p))
  {
    var init := keys[..|keys| - 1];
    var e := keys[|keys| - 1];
    assert keys == init + [e];
    if x in DupFlagIssues(init, p) {
      DupFlagNamesFirst(init, p, x);
      var i :| 0 <= i < |init| && IndexOf(init, init[i].key) != Some(i) &&
        x == DuplicateFlag(init[i].key, Get(init, init[i].key).value, p);
      GetAppend(init, e, init[i].key);
      IndexOfFirst(init, init[i].key, IndexOf(init, init[i].key).value);
      IndexOfFirst(keys, init[i].key, IndexOf(init, init[i].key).value);
    } else {
      SeenFirst(init);
      GetAppend(init, e, e.key);
      var j := IndexOf(init, e.key).value;
      IndexOfFirst(keys, e.key, j);
    }
  }

  /** Registering one key: report it if taken, otherwise record it. */
  method CheckKey(e: Entry<Flag>, p: string, seen: map<string, Flag>, issues: seq<Issue>)
    returns (seen': map<string, Flag>, issues': seq<Issue>)
    ensures seen' == if e.key in seen then seen else seen[e.key := e.value]
    ensures issues' == issues + if e.key in seen then [DuplicateFlag(e.key, seen[e.key], p)] else []
  {
    if e.key in seen {
      issues' := issues + [DuplicateFlag(e.key, seen[e.key], p)];
      seen' := seen;
    } else {
      seen' := seen[e.key := e.value];
      issues' := issues;
    }
  }

  lemma LongsStep(f: Flag, j: nat, keys: seq<Entry<Flag>>)
    requires j < |f.long|
    ensures keys + LongKeys(f.long[..j + 1], f) == keys + LongKeys(f.long[..j], f) + [Entry("--" + f.long[j], f)]
  {
    assert f.long[..j + 1][..j] == f.long[..j];
  }

  lemma ShortsStep(f: Flag, j: nat, keys: seq<Entry<Flag>>)
    requires j < |f.short|
    ensures keys + ShortKeys(f.short[..j + 1], f) == keys + ShortKeys(f.short[..j], f) + [Entry("-" + [f.short[j]], f)]
  {
    assert f.short[..j + 1][..j] == f.short[..j];
  }

  /** The inner loop over a flag's long names. */
  method CheckLongs(f: Flag, p: string, ghost base: seq<Issue>, ghost keys: seq<Entry<Flag>>,
                    seen: map<string, Flag>, issues: seq<Issue>)
    returns (seen': map<string, Flag>, issues': seq<Issue>)
    requires seen == Seen(keys) && issues == base + DupFlagIssues(keys, p)
    ensures seen' == Seen(keys + LongKeys(f.long, f))
    ensures issues' == base + DupFlagIssues(keys + LongKeys(f.long, f), p)
  {
    seen', issues' := seen, issues;
    assert keys + LongKeys(f.long[..0], f) == keys;
    for j := 0 to |f.long|
      invariant seen' == Seen(keys + LongKeys(f.long[..j], f))
      invariant issues' == base + DupFlagIssues(keys + LongKeys(f.long[..j], f), p)
    {
      var e := Entry("--" + f.long[j], f);
      ghost var ks := keys + LongKeys(f.long[..j], f);
      LongsStep(f, j, keys);
      KeyStep(ks, e, p, base);
      seen', issues' := CheckKey(e, p, seen', issues');
    }
    assert f.long[..|f.long|] == f.long;
  }

  /** The inner loop over a flag's short names. */
  method CheckShorts(f: Flag, p: string, ghost base: seq<Issue>, ghost keys: seq<Entry<Flag>>,
                     seen: map<string, Flag>, issues: seq<Issue>)
    returns (seen': map<string, Flag>, issues': seq<Issue>)
    requires seen == Seen(keys) && issues == base + DupFlagIssues(keys, p)
    ensures seen' == Seen(keys + ShortKeys(f.short, f))
    ensures issues' == base + DupFlagIssues(keys + ShortKeys(f.short, f), p)
  {
    seen', issues' := seen, issues;
    assert keys + ShortKeys(f.short[..0], f) == keys;
    for j := 0 to |f.short|
      invariant seen' == Seen(keys + ShortKeys(f.short[..j], f))
      invariant issues' == base + DupFlagIssues(keys + ShortKeys(f.short[..j], f), p)
    {
      var e := Entry("-" + [f.short[j]], f);
      ghost var ks := keys + ShortKeys(f.short[..j], f);
      ShortsStep(f, j, keys);
      KeyStep(ks, e, p, base);
      seen', issues' := CheckKey(e, p, seen', issues');
    }
    assert f.short[..|f.short|] == f.short;
  }

  lemma FlagKeysStep(flags: seq<Flag>, i: nat)
    requires i < |flags|
    ensures FlagKeys(flags[..i + 1]) == FlagKeys(flags[..i]) + LongKeys(flags[i].long, flags[i]) + ShortKeys(flags[i].short, flags[i])
  {
    assert flags[..i + 1][..i] == flags[..i];
  }

  /** The duplicate-flag loop of `lint_command`. */
  method CheckDuplicateFlags(flags: seq<Flag>, p: string, issues: seq<Issue>) returns (out: seq<Issue>)
    ensures out == issues + DupFlagIssues(FlagKeys(flags), p)
  {
    var seen: map<string, Flag> := map[];
    out := issues;
    for i := 0 to |flags|
      invariant seen == Seen(FlagKeys(flags[..i]))
      invariant out == issues + DupFlagIssues(FlagKeys(flags[..i]), p)
    {
      ghost var before := FlagKeys(flags[..i]);
      seen, out := CheckLongs(flags[i], p, issues, before, seen, out);
      seen, out := CheckShorts(flags[i], p, issues, before + LongKeys(flags[i].long, flags[i]), seen, out);
      FlagKeysStep(flags, i);
    }
    assert flags[..|flags|] == flags;
  }

  // ---------------------------------------------------------------------
  // Duplicate argument names and argument order
  // ---------------------------------------------------------------------

  function ArgNames(args: seq<Arg>): (r: set<string>)
    ensures forall n :: n in r <==> exists i :: 0 <= i < |args| && args[i].name == n
  {
    if args == [] then {}
    else
      var init := args[..|args| - 1];
      assert forall i :: 0 <= i < |init| ==> init[i] == args[i];
      ArgNames(init) + {args[|args| - 1].name}
  }

  function DuplicateArg(name: string, p: string): Issue {
    Issue(Error, DuplicateArgCode, name, "", AtCmd(p))
  }

  /** One duplicate-arg error per argument whose name an earlier one took. */
  function DupArgIssues(args: seq<Arg>, p: string): seq<Issue> {
    if args == [] then []
    else
      var a := args[|args| - 1];
      DupArgIssues(args[..|args| - 1], p) + When(a.name in ArgNames(args[..|args| - 1]), DuplicateArg(a.name, p))
  }

  lemma {:induction false} DupArgCodes(args: seq<Arg>, p: string)
    ensures forall x :: x in DupArgIssues(args, p) ==> x.severity == Error && x.code == DuplicateArgCode && x.location == AtCmd(p)
  {
    if args != [] {
      DupArgCodes(args[..|args| - 1], p);
    }
  }

  /** The errors and the distinct names account for every argument. */
  lemma {:induction false} DupArgCount(args: seq<Arg>, p: string)
    ensures |DupArgIssues(args, p)| + |ArgNames(args)| == |args|
  {
    if args != [] {
      var init := args[..|args| - 1];
      var n := args[|args| - 1].name;
      var s := ArgNames(init);
      DupArgCount(init, p);
      if n in s {
        assert s + {n} == s;
      } else {
        assert |s + {n}| == |s| + 1;
      }
    }
  }

  /** No duplicate-arg error is reported exactly when the names are distinct. */
  lemma {:induction false} DupArgNone(args: seq<Arg>, p: string)
    ensures DupArgIssues(args, p) == [] <==> forall i, j :: 0 <= i < j < |args| ==> args[i].name != args[j].name
  {
    if args != [] {
      var init := args[..|args| - 1];
      DupArgNone(init, p);
      assert forall i :: 0 <= i < |init| ==> init[i] == args[i];
      if args[|args| - 1].name in ArgNames(init) {
        var i :| 0 <= i < |init| && init[i].name == args[|args| - 1].name;
        assert args[i].name == args[|args| - 1].name;
      }
    }
  }

  lemma DupArgStep(args: seq<Arg>, i: nat, p: string, pre: seq<Issue>)
    requires i < |args|
    ensures ArgNames(args[..i + 1]) == ArgNames(args[..i]) + {args[i].name}
    ensures pre + DupArgIssues(args[..i + 1], p) ==
      pre + DupArgIssues(args[..i], p) + When(args[i].name in ArgNames(args[..i]), DuplicateArg(args[i].name, p))
  {
    assert args[..i + 1][..i] == args[..i];
  }

  /** The duplicate-arg loop of `lint_command`. */
  method CheckDuplicateArgs(args: seq<Arg>, p: string, issues: seq<Issue>) returns (out: seq<Issue>)
    ensures out == issues + DupArgIssues(args, p)
  {
    var seen: set<string> := {};
    out := issues;
    for i := 0 to |args|
      invariant seen == ArgNames(args[..i])
      invariant out == issues + DupArgIssues(args[..i], p)
    {
      DupArgStep(args, i, p, issues);
      if args[i].name in seen {
        out := out + [DuplicateArg(args[i].name, p)];
        assert seen + {args[i].name} == seen;
      } else {
        seen := seen + {args[i].name};
      }
    }
    assert args[..|args|] == args;
  }

  predicate AnyOptional(args: seq<Arg>) {
    exists j :: 0 <= j < |args| && !args[j].required
  }

  function OrderIssue(a: Arg, p: string): Issue {
    Issue(Warning, RequiredAfterOptional, a.name, "", AtCmd(p))
  }

  /** The required-after-optional warnings, in argument order. */
  function OrderIssues(args: seq<Arg>, p: string): seq<Issue> {
    if args == [] then []
    else
      var a := args[|args| - 1];
      OrderIssues(args[..|args| - 1], p) +
        if a.required && !a.variadic && AnyOptional(args[..|args| - 1]) then [OrderIssue(a, p)] else []
  }

  /** A warning is reported for an argument exactly when it is required, not
      variadic, and some earlier argument is optional. */
  lemma {:induction false} OrderSpec(args: seq<Arg>, p: string)
    ensures forall x :: x in OrderIssues(args, p) <==>
      exists i :: 0 <= i < |args| && args[i].required && !args[i].variadic && AnyOptional(args[..i]) && x == OrderIssue(args[i], p)
  {
    if args != [] {
      var init := args[..|args| - 1];
      OrderSpec(init, p);
      assert forall i :: 0 <= i < |init| ==> init[i] == args[i] && init[..i] == args[..i];
    }
  }

  /** The `found_optional` loop of `lint_command`. */
  method CheckArgOrder(args: seq<Arg>, p: string, issues: seq<Issue>) returns (out: seq<Issue>)
    ensures out == issues + OrderIssues(args, p)
  {
    var foundOptional := false;
    out := issues;
    for i := 0 to |args|
      invariant foundOptional == AnyOptional(args[..i])
      invariant out == issues + OrderIssues(args[..i], p)
    {
      assert args[..i + 1][..i] == args[..i];
      assert AnyOptional(args[..i + 1]) == (foundOptional || !args[i].required) by {
        assert forall j :: 0 <= j < i ==> args[..i + 1][j] == args[..i][j];
      }
      if !args[i].required {
        foundOptional := true;
      } else if foundOptional && !args[i].variadic {
        out := out + [OrderIssue(args[i], p)];
      }
    }
    assert args[..|args|] == args;
  }

  // ---------------------------------------------------------------------
  // Commands and the spec
  // ---------------------------------------------------------------------

  function HelpIssue(cmd: Command, path: seq<string>): Issue {
    Issue(Info, MissingCmdHelp, "", "", AtCmd(CmdPath(path, cmd.name)))
  }

  /** `lint_command`: help, duplicate keys, flags, duplicate names, arguments,
      argument order, then every subcommand with the path extended. */
  function CommandIssues(cmd: Command, path: seq<string>): seq<Issue>
    decreases cmd, 1
  {
    var p := CmdPath(path, cmd.name);
    When(cmd.help.None? && cmd.name != "", HelpIssue(cmd, path))
    + DupFlagIssues(FlagKeys(cmd.flags), p)
    + FlagsIssues(cmd.flags, p)
    + DupArgIssues(cmd.args, p)
    + ArgsIssues(cmd.args, p)
    + OrderIssues(cmd.args, p)
    + SubcommandsIssues(cmd.subcommands, path + [cmd.name])
  }

  function SubcommandsIssues(subs: seq<Entry<Command>>, path: seq<string>): seq<Issue>
    decreases subs, 0
  {
    if subs == [] then []
    else SubcommandsIssues(subs[..|subs| - 1], path) + CommandIssues(subs[|subs| - 1].value, path)
  }

  lemma {:induction false} FlagsCodes(flags: seq<Flag>, p: string)
    ensures forall x :: x in FlagsIssues(flags, p) ==> CommandCode(x.code)
  {
    if flags != [] {
      FlagsCodes(flags[..|flags| - 1], p);
      FlagCodes(flags[|flags| - 1], p);
    }
  }

  lemma {:induction false} ArgsCodes(args: seq<Arg>, p: string)
    ensures forall x :: x in ArgsIssues(args, p) ==> CommandCode(x.code)
  {
    if args != [] {
      ArgsCodes(args[..|args| - 1], p);
    }
  }

  lemma {:induction false} OrderCodes(args: seq<Arg>, p: string)
    ensures forall x :: x in OrderIssues(args, p) ==> x.code == RequiredAfterOptional && x.severity == Warning
  {
    if args != [] {
      OrderCodes(args[..|args| - 1], p);
    }
  }

  /** A command walk reports only command-level codes, never the two
      spec-level ones. */
  lemma {:induction false} CommandCodes(cmd: Command, path: seq<string>)
    ensures forall x :: x in CommandIssues(cmd, path) ==> CommandCode(x.code)
    decreases cmd, 1
  {
    var p := CmdPath(path, cmd.name);
    DupFlagCodes(FlagKeys(cmd.flags), p);
    DupArgCodes(cmd.args, p);
    FlagsCodes(cmd.flags, p);
    ArgsCodes(cmd.args, p);
    OrderCodes(cmd.args, p);
    SubcommandsCodes(cmd.subcommands, path + [cmd.name]);
  }

  lemma {:induction false} SubcommandsCodes(subs: seq<Entry<Command>>, path: seq<string>)
    ensures forall x :: x in SubcommandsIssues(subs, path) ==> CommandCode(x.code)
    decreases subs, 0
  {
    if subs != [] {
      SubcommandsCodes(subs[..|subs| - 1], path);
      CommandCodes(subs[|subs| - 1].value, path);
    }
  }

  /** Every issue of a subcommand, linted under the extended path, is an
      issue of its parent. */
  lemma {:induction false} SubcommandsLinted(subs: seq<Entry<Command>>, path: seq<string>, k: nat, x: Issue)
    requires k < |subs| && x in CommandIssues(subs[k].value, path)
    ensures x in SubcommandsIssues(subs, path)
  {
    if k < |subs| - 1 {
      SubcommandsLinted(subs[..|subs| - 1], path, k, x);
    }
  }

  /** A named command without help opens its issues with missing-cmd-help,
      and its subcommands are linted under `path + [name]`. */
  lemma CommandLinted(cmd: Command, path: seq<string>)
    ensures cmd.help.None? && cmd.name != "" ==> CommandIssues(cmd, path)[0] == HelpIssue(cmd, path)
    ensures forall k, x :: 0 <= k < |cmd.subcommands| && x in CommandIssues(cmd.subcommands[k].value, path + [cmd.name]) ==>
      x in CommandIssues(cmd, path)
  {
    forall k, x | 0 <= k < |cmd.subcommands| && x in CommandIssues(cmd.subcommands[k].value, path + [cmd.name])
      ensures x in CommandIssues(cmd, path)
    {
      SubcommandsLinted(cmd.subcommands, path + [cmd.name], k, x);
    }
  }

  /** `lint_flag`, with its naming loop over the long names. */
  method LintFlag(f: Flag, p: string, issues: seq<Issue>) returns (out: seq<Issue>)
    ensures out == issues + FlagIssues(f, p)
  {
    out := issues;
    if f.short == [] && f.long == [] {
      out := out + [NoOptionIssue(f, p)];
    }
    if f.help.None? && !f.hide {
      out := out + [FlagHelpIssue(f, p)];
    }
    if f.deprecated.Some? {
      out := out + [DeprecatedIssue(f, f.deprecated.value, p)];
    }
    HeadSplit(f, p, issues);
    for j := 0 to |f.long|
      invariant out == issues + FlagHeadIssues(f, p) + NamingIssues(f, f.long[..j], p)
    {
      NamingStep(f, f.long, j, p, issues + FlagHeadIssues(f, p));
      if Mixes(f.long[j]) {
        out := out + [NamingIssue(f, f.long[j], p)];
      }
    }
    assert f.long[..|f.long|] == f.long;
    FlagSplit(f, p, issues);
  }

  lemma HeadSplit(f: Flag, p: string, pre: seq<Issue>)
    ensures pre + FlagHeadIssues(f, p) ==
      pre + When(f.short == [] && f.long == [], NoOptionIssue(f, p))
      + When(f.help.None? && !f.hide, FlagHelpIssue(f, p))
      + When(f.deprecated.Some?, DeprecatedIssue(f, if f.deprecated.Some? then f.deprecated.value else "", p))
  {
  }

  lemma FlagSplit(f: Flag, p: string, pre: seq<Issue>)
    ensures pre + FlagIssues(f, p) == pre + FlagHeadIssues(f, p) + NamingIssues(f, f.long, p)
  {
  }

  /** `lint_arg`. */
  method LintArg(a: Arg, p: string, issues: seq<Issue>) returns (out: seq<Issue>)
    ensures out == issues + ArgIssues(a, p)
  {
    out := issues;
    if a.help.None? && !a.hide {
      out := out + [ArgHelpIssue(a, p)];
    }
    if Mixes(a.name) {
      out := out + [ArgNamingIssue(a, p)];
    }
  }

  /** The loop of `lint_command` over the flags. */
  method LintFlags(flags: seq<Flag>, p: string, issues: seq<Issue>) returns (out: seq<Issue>)
    ensures out == issues + FlagsIssues(flags, p)
  {
    out := issues;
    for i := 0 to |flags|
      invariant out == issues + FlagsIssues(flags[..i], p)
    {
      FlagsStep(flags, i, p, issues);
      out := LintFlag(flags[i], p, out);
    }
    assert flags[..|flags|] == flags;
  }

  lemma FlagsStep(flags: seq<Flag>, i: nat, p: string, pre: seq<Issue>)
    requires i < |flags|
    ensures pre + FlagsIssues(flags[..i + 1], p) == pre + FlagsIssues(flags[..i], p) + FlagIssues(flags[i], p)
  {
    assert flags[..i + 1][..i] == flags[..i];
  }

  /** The loop of `lint_command` over the arguments. */
  method LintArgs(args: seq<Arg>, p: string, issues: seq<Issue>) returns (out: seq<Issue>)
    ensures out == issues + ArgsIssues(args, p)
  {
    out := issues;
    for i := 0 to |args|
      invariant out == issues + ArgsIssues(args[..i], p)
    {
      ArgsStep(args, i, p, issues);
      out := LintArg(args[i], p, out);
    }
    assert args[..|args|] == args;
  }

  lemma ArgsStep(args: seq<Arg>, i: nat, p: string, pre: seq<Issue>)
    requires i < |args|
    ensures pre + ArgsIssues(args[..i + 1], p) == pre + ArgsIssues(args[..i], p) + ArgIssues(args[i], p)
  {
    assert args[..i + 1][..i] == args[..i];
  }

  /** The recursion of `lint_command` into the subcommands, in order. */
  method LintSubcommands(subs: seq<Entry<Command>>, path: seq<string>, issues: seq<Issue>) returns (out: seq<Issue>)
    ensures out == issues + SubcommandsIssues(subs, path)
    decreases subs, 0
  {
    out := issues;
    for i := 0 to |subs|
      invariant out == issues + SubcommandsIssues(subs[..i], path)
    {
      SubcommandsStep(subs, i, path, issues);
      assert subs[i] in subs;
      out := LintCommand(subs[i].value, path, out);
    }
    assert subs[..|subs|] == subs;
  }

  lemma SubcommandsStep(subs: seq<Entry<Command>>, i: nat, path: seq<string>, pre: seq<Issue>)
    requires i < |subs|
    ensures pre + SubcommandsIssues(subs[..i + 1], path) == pre + SubcommandsIssues(subs[..i], path) + CommandIssues(subs[i].value, path)
  {
    assert subs[..i + 1][..i] == subs[..i];
  }

  /** The help check of `lint_command`; a command with an empty name is exempt. */
  method CheckHelp(cmd: Command, path: seq<string>, issues: seq<Issue>) returns (out: seq<Issue>)
    ensures out == issues + When(cmd.help.None? && cmd.name != "", HelpIssue(cmd, path))
  {
    out := issues;
    if cmd.help.None? && cmd.name != "" {
      out := out + [HelpIssue(cmd, path)];
    }
  }

  /** `lint_command`, pushing onto the issue list. */
  method LintCommand(cmd: Command, path: seq<string>, issues: seq<Issue>) returns (out: seq<Issue>)
    ensures out == issues + CommandIssues(cmd, path)
    decreases cmd, 1
  {
    var p := CmdPath(path, cmd.name);
    out := CheckHelp(cmd, path, issues);
    out := CheckDuplicateFlags(cmd.flags, p, out);
    out := LintFlags(cmd.flags, p, out);
    out := CheckDuplicateArgs(cmd.args, p, out);
    out := LintArgs(cmd.args, p, out);
    out := CheckArgOrder(cmd.args, p, out);
    out := LintSubcommands(cmd.subcommands, path + [cmd.name], out);
    CommandSplit(cmd, path, issues);
  }

  lemma CommandSplit(cmd: Command, path: seq<string>, pre: seq<Issue>)
    ensures
      var p := CmdPath(path, cmd.name);
      pre + CommandIssues(cmd, path) ==
        pre + When(cmd.help.None? && cmd.name != "", HelpIssue(cmd, path))
        + DupFlagIssues(FlagKeys(cmd.flags), p)
        + FlagsIssues(cmd.flags, p)
        + DupArgIssues(cmd.args, p)
        + ArgsIssues(cmd.args, p)
        + OrderIssues(cmd.args, p)
        + SubcommandsIssues(cmd.subcommands, path + [cmd.name])
  {
    var p := CmdPath(path, cmd.name);
    var w := When(cmd.help.None? && cmd.name != "", HelpIssue(cmd, path));
    var d := DupFlagIssues(FlagKeys(cmd.flags), p);
    var f := FlagsIssues(cmd.flags, p);
    var da := DupArgIssues(cmd.args, p);
    var a := ArgsIssues(cmd.args, p);
    var o := OrderIssues(cmd.args, p);
    var s := SubcommandsIssues(cmd.subcommands, path + [cmd.name]);
    Assoc(pre, w + d + f + da + a + o, s);
    Assoc(pre, w + d + f + da + a, o);
    Assoc(pre, w + d + f + da, a);
    Assoc(pre, w + d + f, da);
    Assoc(pre, w + d, f);
    Assoc(pre, w, d);
  }

  lemma Assoc(a: seq<Issue>, b: seq<Issue>, c: seq<Issue>)
    ensures a + (b + c) == a + b + c
  {
  }

  const NameIssue: Issue := Issue(Warning, MissingName, "", "", Nowhere)

  /** The error for a default subcommand that is not a subcommand of the
      root; the message lists the valid names. */
  function DefaultIssue(d: string, keys: seq<string>): Issue {
    var valid := if keys == [] then "no subcommands defined" else "valid subcommands: " + Join(keys, ", ");
    Issue(Error, InvalidDefaultSubcommand, d, valid, Nowhere)
  }

  predicate BadDefault(spec: Spec) {
    spec.defaultSubcommand.Some? && spec.defaultSubcommand.value !in Keys(spec.cmd.subcommands)
  }

  function DefaultIssues(spec: Spec): seq<Issue> {
    if BadDefault(spec) then [DefaultIssue(spec.defaultSubcommand.value, Keys(spec.cmd.subcommands))] else []
  }

  /** `lint_spec`: the spec-level checks, then the root command with an
      empty path. */
  function SpecIssues(spec: Spec): (r: seq<Issue>)
    ensures spec.bin == "" && spec.name == "" ==> r != [] && r[0] == NameIssue
    ensures BadDefault(spec) ==> DefaultIssue(spec.defaultSubcommand.value, Keys(spec.cmd.subcommands)) in r
  {
    When(spec.bin == "" && spec.name == "", NameIssue) + DefaultIssues(spec) + CommandIssues(spec.cmd, [])
  }

  /** missing-name is reported once, as a warning, exactly when the spec has
      neither a name nor a bin; invalid-default-subcommand once, as an
      error, exactly when the default subcommand is not a subcommand of the
      root. */
  lemma SpecChecks(spec: Spec)
    ensures WithCode(SpecIssues(spec), MissingName) == When(spec.bin == "" && spec.name == "", NameIssue)
    ensures WithCode(SpecIssues(spec), InvalidDefaultSubcommand) == DefaultIssues(spec)
  {
    SpecFilter(spec, MissingName);
    SpecFilter(spec, InvalidDefaultSubcommand);
  }

  /** Filtering by a spec-level code sees only the spec-level checks. */
  lemma SpecFilter(spec: Spec, c: Code)
    requires !CommandCode(c)
    ensures WithCode(SpecIssues(spec), c) ==
      When(spec.bin == "" && spec.name == "" && c == MissingName, NameIssue)
      + (if c == InvalidDefaultSubcommand then DefaultIssues(spec) else [])
  {
    var name := When(spec.bin == "" && spec.name == "", NameIssue);
    var dflt := DefaultIssues(spec);
    var rest := CommandIssues(spec.cmd, []);
    SpecSplit(spec);
    CommandCodes(spec.cmd, []);
    WithCodeNone(rest, c);
    WithCodeWhen(spec.bin == "" && spec.name == "", NameIssue, c);
    if BadDefault(spec) {
      WithCodeWhen(true, DefaultIssue(spec.defaultSubcommand.value, Keys(spec.cmd.subcommands)), c);
    }
    WithCodeAppend(name + dflt, rest, c);
    WithCodeAppend(name, dflt, c);
  }

  /** The default-subcommand check of `lint_spec`. */
  method CheckDefault(spec: Spec, issues: seq<Issue>) returns (out: seq<Issue>)
    ensures out == issues + DefaultIssues(spec)
  {
    out := issues;
    if spec.defaultSubcommand.Some? {
      var keys := Keys(spec.cmd.subcommands);
      if spec.defaultSubcommand.value !in keys {
        out := out + [DefaultIssue(spec.defaultSubcommand.value, keys)];
      }
    }
  }

  /** `lint_spec` as the linter runs it. */
  method LintSpec(spec: Spec) returns (issues: seq<Issue>)
    ensures issues == SpecIssues(spec)
  {
    issues := [];
    if spec.bin == "" && spec.name == "" {
      issues := issues + [NameIssue];
    }
    issues := CheckDefault(spec, issues);
    issues := LintCommand(spec.cmd, [], issues);
    SpecSplit(spec);
  }

  lemma SpecSplit(spec: Spec)
    ensures SpecIssues(spec) == When(spec.bin == "" && spec.name == "", NameIssue) + DefaultIssues(spec) + CommandIssues(spec.cmd, [])
  {
  }
}
