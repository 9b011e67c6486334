/** The in-memory spec of the usage library (lib/src/spec): arguments,
    flags, commands and the top-level spec. The library's sources disagree
    with each other on a few fields (an argument's default is one string in
    one file and a list in others; some files use fields that the struct
    definitions lack); this module is the union of them: defaults are lists,
    flags and arguments both carry `var_min`/`var_max`, the double-dash
    choice has a `Preserve` variant, a command has a restart token and the
    spec has a default subcommand and examples. Ordered maps (`IndexMap`)
    are sequences of entries. */
module UsageSpec {
  import opened Wrappers

  datatype DoubleDash = Automatic | Optional | Required | Preserve

  datatype Arg = Arg(
    name: string,
    usage: string,
    help: Option<string>,
    helpLong: Option<string>,
    helpMd: Option<string>,
    helpFirstLine: Option<string>,
    required: bool,
    doubleDash: DoubleDash,
    variadic: bool,
    varMin: Option<nat>,
    varMax: Option<nat>,
    hide: bool,
    default: seq<string>,
    choices: Option<seq<string>>,
    env: Option<string>)

  datatype Flag = Flag(
    name: string,
    usage: string,
    help: Option<string>,
    helpLong: Option<string>,
    helpMd: Option<string>,
    helpFirstLine: Option<string>,
    short: seq<char>,
    long: seq<string>,
    required: bool,
    deprecated: Option<string>,
    variadic: bool,
    varMin: Option<nat>,
    varMax: Option<nat>,
    hide: bool,
    global: bool,
    count: bool,
    arg: Option<Arg>,
    default: seq<string>,
    negate: Option<string>,
    env: Option<string>)

  datatype Example = Example(code: string, header: Option<string>, help: Option<string>, lang: string)

  /** A mount runs a command whose output is a spec; it is never run here. */
  datatype Mount = Mount(run: string)

  /** How to complete the values of one argument: a command or a type. */
  datatype Complete = Complete(name: string, run: Option<string>, kind: Option<string>)

  datatype Command = Command(
    fullCmd: seq<string>,
    usage: string,
    subcommands: seq<Entry<Command>>,
    args: seq<Arg>,
    flags: seq<Flag>,
    mounts: seq<Mount>,
    deprecated: Option<string>,
    hide: bool,
    subcommandRequired: bool,
    help: Option<string>,
    helpLong: Option<string>,
    helpMd: Option<string>,
    name: string,
    aliases: seq<string>,
    hiddenAliases: seq<string>,
    beforeHelp: Option<string>,
    beforeHelpLong: Option<string>,
    beforeHelpMd: Option<string>,
    afterHelp: Option<string>,
    afterHelpLong: Option<string>,
    afterHelpMd: Option<string>,
    examples: seq<Example>,
    complete: seq<Entry<Complete>>,
    restartToken: Option<string>)

  /** One entry of an ordered map keyed by name. */
  datatype Entry<V> = Entry(key: string, value: V)

  /** The configuration block; only whether it is empty is used here. */
  datatype Config = Config(entries: seq<string>)

  datatype Spec = Spec(
    name: string,
    bin: string,
    cmd: Command,
    config: Config,
    version: Option<string>,
    usage: string,
    complete: seq<Entry<Complete>>,
    sourceCodeLinkTemplate: Option<string>,
    author: Option<string>,
    about: Option<string>,
    aboutLong: Option<string>,
    aboutMd: Option<string>,
    disableHelp: Option<bool>,
    minUsageVersion: Option<string>,
    examples: seq<Example>,
    defaultSubcommand: Option<string>)

  /** `SpecArg::default()`: optional, no name. */
  const DefaultArg: Arg := Arg("", "", None, None, None, None, false, Optional, false, None, None, false, [], None, None)

  const DefaultFlag: Flag :=
    Flag("", "", None, None, None, None, [], [], false, None, false, None, None, false, false, false, None, [], None, None)

  const DefaultCommand: Command :=
    Command([], "", [], [], [], [], None, false, false, None, None, None, "", [], [], None, None, None, None, None, None, [], [], None)

  const DefaultSpec: Spec :=
    Spec("", "", DefaultCommand, Config([]), None, "", [], None, None, None, None, None, None, None, [], None)

  // ---------------------------------------------------------------------
  // Ordered maps
  // ---------------------------------------------------------------------

  /** The keys of an ordered map, in order. */
  function Keys<V>(es: seq<Entry<V>>): (r: seq<string>)
    ensures |r| == |es|
    ensures forall i :: 0 <= i < |es| ==> r[i] == es[i].key
  {
    if es == [] then [] else Keys(es[..|es| - 1]) + [es[|es| - 1].key]
  }

  /** The values of an ordered map, in order (`values()`). */
  function Values<V>(es: seq<Entry<V>>): (r: seq<V>)
    ensures |r| == |es|
    ensures forall i :: 0 <= i < |es| ==> r[i] == es[i].value
  {
    if es == [] then [] else Values(es[..|es| - 1]) + [es[|es| - 1].value]
  }

  /** Each key occurs once. */
  predicate UniqueKeys<V>(es: seq<Entry<V>>) {
    forall i, j :: 0 <= i < j < |es| ==> es[i].key != es[j].key
  }

  /** The position of a key, if present. */
  function IndexOf<V>(es: seq<Entry<V>>, k: string): (r: Option<nat>)
    ensures r.Some? ==> r.value < |es| && es[r.value].key == k
    ensures r.Some? ==> forall i :: 0 <= i < r.value ==> es[i].key != k
    ensures r.None? ==> forall i :: 0 <= i < |es| ==> es[i].key != k
  {
    if es == [] then None
    else if es[0].key == k then Some(0)
    else
      match IndexOf(es[1..], k)
      case None => None
      case Some(i) => Some(i + 1)
  }

  /** `IndexMap::get`. */
  function Get<V>(es: seq<Entry<V>>, k: string): (r: Option<V>)
    ensures r.Some? <==> exists i :: 0 <= i < |es| && es[i].key == k
  {
    match IndexOf(es, k)
    case None => None
    case Some(i) => Some(es[i].value)
  }

  /** `IndexMap::insert`: an existing key keeps its place and takes the new
      value; a new key goes to the end. */
  function Insert<V>(es: seq<Entry<V>>, k: string, v: V): seq<Entry<V>> {
    match IndexOf(es, k)
    case None => es + [Entry(k, v)]
    case Some(i) => es[i := Entry(k, v)]
  }

  /** The first position holding a key is the one `IndexOf` finds. */
  lemma IndexOfFirst<V>(es: seq<Entry<V>>, k: string, j: nat)
    requires j < |es| && es[j].key == k
    requires forall i :: 0 <= i < j ==> es[i].key != k
    ensures IndexOf(es, k) == Some(j)
  {
  }

  /** After an insertion the key maps to the new value. */
  lemma InsertGet<V>(es: seq<Entry<V>>, k: string, v: V)
    ensures Get(Insert(es, k, v), k) == Some(v)
  {
    var r := Insert(es, k, v);
    match IndexOf(es, k)
    case None =>
      IndexOfFirst(r, k, |es|);
    case Some(j) =>
      IndexOfFirst(r, k, j);
  }

  /** An insertion leaves every other key as it was. */
  lemma InsertOther<V>(es: seq<Entry<V>>, k: string, v: V, k2: string)
    requires k2 != k
    ensures Get(Insert(es, k, v), k2) == Get(es, k2)
  {
    var r := Insert(es, k, v);
    assert forall i :: 0 <= i < |es| ==> (r[i].key == k2 <==> es[i].key == k2);
    match IndexOf(es, k2)
    case None =>
      assert forall i :: 0 <= i < |r| ==> r[i].key != k2;
    case Some(j) =>
      IndexOfFirst(r, k2, j);
  }

  /** An insertion keeps the keys unique, and appends only a new key. */
  lemma InsertUnique<V>(es: seq<Entry<V>>, k: string, v: V)
    requires UniqueKeys(es)
    ensures UniqueKeys(Insert(es, k, v))
    ensures |Insert(es, k, v)| == if k in Keys(es) then |es| else |es| + 1
  {
    if k in Keys(es) {
      var i :| 0 <= i < |es| && Keys(es)[i] == k;
      assert es[i].key == k;
    }
  }

  // ---------------------------------------------------------------------
  // Small shared helpers
  // ---------------------------------------------------------------------

  /** `s.lines().next().unwrap_or_default()`: the text up to the first
      line break, `\n` or `\r\n`; a `\r` is dropped only before a `\n`. */
  function FirstLine(s: string): (r: string)
    ensures '\n' !in r
    ensures |r| <= |s| && r == s[..|r|]
    ensures |r| == |s| || s[|r|] == '\n' || (s[|r|] == '\r' && |r| + 1 < |s| && s[|r| + 1] == '\n')
    ensures 0 < |r| < |s| && s[|r|] == '\n' ==> r[|r| - 1] != '\r'
  {
    if s == [] || s[0] == '\n' then ""
    else if s[0] == '\r' && |s| > 1 && s[1] == '\n' then ""
    else [s[0]] + FirstLine(s[1..])
  }

  /** The first line is the only prefix of the text that ends at the
      first break: any prefix free of `\n` that stops at the end of the
      text, at a `\n` not preceded by `\r`, or at a `\r\n`, is it. */
  lemma {:induction false} FirstLineUnique(s: string, t: string)
    requires |t| <= |s| && t == s[..|t|] && '\n' !in t
    requires |t| == |s| || s[|t|] == '\n' || (s[|t|] == '\r' && |t| + 1 < |s| && s[|t| + 1] == '\n')
    requires 0 < |t| < |s| && s[|t|] == '\n' ==> t[|t| - 1] != '\r'
    ensures t == FirstLine(s)
  {
    if s == [] {
    } else if s[0] == '\n' {
      assert t == [];
    } else if s[0] == '\r' && |s| > 1 && s[1] == '\n' {
    } else {
      assert t != [];
      var t1 := t[1..];
      assert t1 == s[1..][..|t1|];
      assert '\n' !in t1 by {
        forall c | c in t1 ensures c != '\n' {
          var k :| 0 <= k < |t1| && t1[k] == c;
          assert t[k + 1] == c;
        }
      }
      if 0 < |t1| < |s[1..]| && s[1..][|t1|] == '\n' {
        assert t1[|t1| - 1] == t[|t| - 1];
      }
      FirstLineUnique(s[1..], t1);
      assert t == [s[0]] + t1;
    }
  }
}
