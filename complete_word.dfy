/** Completion of the word under the cursor (`usage complete-word`): the
    current word and the words before it, the legacy parse of those words,
    and the choice of completer: subcommand names, flag names, or the
    argument whose values are wanted. */
module Completion {
  import opened Wrappers
  import opened Strings
  import opened UsageSpec
  import opened ArgvWords
  import LegacyCli

  // ---------------------------------------------------------------------
  // The current word
  // ---------------------------------------------------------------------

  /** `cword`: the given index, or the index of the last word (0 when there
      are no words). */
  function Current(words: seq<string>, cword: Option<nat>): nat {
    if cword.Some? then cword.value else (if |words| > 1 then |words| else 1) - 1
  }

  /** `ctoken`: the word at the index, or empty past the end. */
  function Token(words: seq<string>, cword: nat): string {
    if cword < |words| then words[cword] else ""
  }

  /** The words before the current one, which are parsed. */
  function Before(words: seq<string>, cword: nat): seq<string> {
    words[..if cword < |words| then cword else |words|]
  }

  /** Without an index the last word is completed and every earlier word is
      parsed; with no words at all the token is empty. */
  lemma LastWordCompleted(words: seq<string>)
    ensures words != [] ==> Token(words, Current(words, None)) == words[|words| - 1]
    ensures words != [] ==> Before(words, Current(words, None)) + [words[|words| - 1]] == words
    ensures words == [] ==> Current(words, None) == 0 && Token(words, 0) == "" && Before(words, 0) == []
  {
    if words != [] {
      assert words[..|words| - 1] + [words[|words| - 1]] == words;
    }
  }

  /** The parsed words and the token are the words up to and including the
      current one. */
  lemma TokenFollowsBefore(words: seq<string>, cword: nat)
    requires cword < |words|
    ensures Before(words, cword) + [Token(words, cword)] == words[..cword + 1]
  {
  }

  // ---------------------------------------------------------------------
  // The template context and its PREV index
  // ---------------------------------------------------------------------

  const UsizeModulus: nat := 0x1_0000_0000_0000_0000

  /** `cword - 1` on a 64-bit `usize` as written; in a release build the
      subtraction wraps (a debug build panics). */
  function PrevAsWritten(cword: nat): (r: nat)
    requires cword < UsizeModulus
    ensures r < UsizeModulus
  {
    (cword + UsizeModulus - 1) % UsizeModulus
  }

  /** With the default index and a single word (or none), `PREV` wraps to the
      largest `usize` instead of naming a word. */
  lemma PrevUnderflows()
    ensures Current(["cmd"], None) == 0
    ensures PrevAsWritten(Current(["cmd"], None)) == UsizeModulus - 1
  {
  }

  /** The previous index, absent at the first word. */
  function Prev(cword: nat): (r: Option<nat>)
    ensures r.Some? <==> cword > 0
    ensures r.Some? ==> r.value + 1 == cword
  {
    if cword == 0 then None else Some(cword - 1)
  }

  /** Away from the first word the corrected index agrees with the written
      subtraction. */
  lemma PrevAgrees(cword: nat)
    requires 0 < cword < UsizeModulus
    ensures Prev(cword) == Some(PrevAsWritten(cword))
  {
    assert (cword + UsizeModulus - 1) % UsizeModulus == cword - 1 by {
      assert cword + UsizeModulus - 1 == (cword - 1) + UsizeModulus;
    }
  }

  /** The template context given to a completion's `run` script. */
  datatype Context = Context(words: seq<string>, current: nat, prev: Option<nat>)

  // ---------------------------------------------------------------------
  // Candidate filters
  // ---------------------------------------------------------------------

  predicate Distinct(s: seq<string>) {
    forall i, j :: 0 <= i < j < |s| ==> s[i] != s[j]
  }

  /** Two equal positions count twice. */
  lemma CountTwice(s: seq<string>, i: nat, j: nat)
    requires i < j < |s| && s[i] == s[j]
    ensures multiset(s)[s[i]] >= 2
  {
    assert s == s[..j] + [s[j]] + s[j + 1..];
    assert s[i] in s[..j];
  }

  /** A sequence is distinct exactly when no element counts twice. */
  lemma {:induction false} DistinctCount(s: seq<string>)
    ensures Distinct(s) <==> forall x :: multiset(s)[x] <= 1
  {
    if !Distinct(s) {
      var i, j :| 0 <= i < j < |s| && s[i] == s[j];
      CountTwice(s, i, j);
    } else if s != [] {
      var init := s[..|s| - 1];
      assert Distinct(init);
      DistinctCount(init);
      assert s == init + [s[|s| - 1]];
      assert s[|s| - 1] !in init;
    }
  }

  /** The candidates starting with a prefix, in order (`filter(starts_with)`). */
  function WithPrefix(xs: seq<string>, p: string): (r: seq<string>)
    ensures forall x :: multiset(r)[x] == if StartsWith(x, p) then multiset(xs)[x] else 0
  {
    if xs == [] then []
    else
      var init := xs[..|xs| - 1];
      var last := xs[|xs| - 1];
      assert xs == init + [last];
      WithPrefix(init, p) + if StartsWith(last, p) then [last] else []
  }

  lemma PrefixedDistinct(p: string, xs: seq<string>)
    requires Distinct(xs)
    ensures Distinct(Prefixed(p, xs))
  {
    var r := Prefixed(p, xs);
    forall i, j | 0 <= i < j < |r| ensures r[i] != r[j] {
      assert r[i][|p|..] == xs[i];
      assert r[j][|p|..] == xs[j];
    }
  }

  /** Sorting distinct candidates keeps them distinct. */
  lemma SortDistinct(xs: seq<string>)
    requires Distinct(xs)
    ensures Distinct(Sort(xs))
  {
    DistinctCount(xs);
    DistinctCount(Sort(xs));
  }

  lemma FilterDistinct(xs: seq<string>, p: string)
    requires Distinct(xs)
    ensures Distinct(WithPrefix(xs, p))
  {
    DistinctCount(xs);
    DistinctCount(WithPrefix(xs, p));
  }

  // ---------------------------------------------------------------------
  // complete_subcommands
  // ---------------------------------------------------------------------

  /** The names and visible aliases of the shown subcommands, in order. */
  function SubcommandCandidates(subs: seq<Entry<Command>>): seq<string> {
    if subs == [] then []
    else
      var sub := subs[|subs| - 1].value;
      SubcommandCandidates(subs[..|subs| - 1]) + if sub.hide then [] else [sub.name] + sub.aliases
  }

  /** `x` is the name or a visible alias of a subcommand that is not hidden. */
  ghost predicate ShownName(subs: seq<Entry<Command>>, x: string) {
    exists i :: 0 <= i < |subs| && !subs[i].value.hide && (x == subs[i].value.name || x in subs[i].value.aliases)
  }

  lemma {:induction false} CandidatesOf(subs: seq<Entry<Command>>, x: string)
    ensures x in SubcommandCandidates(subs) <==> ShownName(subs, x)
  {
    if subs != [] {
      var init := subs[..|subs| - 1];
      CandidatesOf(init, x);
      assert forall i :: 0 <= i < |init| ==> init[i] == subs[i];
    }
  }

  /** `complete_subcommands`: the candidates starting with the token, sorted. */
  function SubcommandChoices(cmd: Command, ctoken: string): seq<string> {
    Sort(WithPrefix(SubcommandCandidates(cmd.subcommands), ctoken))
  }

  /** The choices are sorted, and a word is offered exactly when it starts
      with the token and is the name or an alias of a subcommand that is not
      hidden. */
  lemma SubcommandChoicesSpec(cmd: Command, ctoken: string)
    ensures Sorted(SubcommandChoices(cmd, ctoken))
    ensures forall x :: x in SubcommandChoices(cmd, ctoken) <==> StartsWith(x, ctoken) && ShownName(cmd.subcommands, x)
  {
    var all := SubcommandCandidates(cmd.subcommands);
    forall x ensures x in SubcommandChoices(cmd, ctoken) <==> StartsWith(x, ctoken) && ShownName(cmd.subcommands, x) {
      InSort(WithPrefix(all, ctoken), x);
      InWithPrefix(all, ctoken, x);
      CandidatesOf(cmd.subcommands, x);
    }
  }

  lemma CandidatesStep(subs: seq<Entry<Command>>, i: nat)
    requires i < |subs|
    ensures SubcommandCandidates(subs[..i + 1]) ==
      SubcommandCandidates(subs[..i]) + if subs[i].value.hide then [] else [subs[i].value.name] + subs[i].value.aliases
  {
    assert subs[..i + 1][..i] == subs[..i];
  }

  /** The alias loop of `complete_subcommands`. */
  method PushAliases(aliases: seq<string>, choices: seq<string>) returns (out: seq<string>)
    ensures out == choices + aliases
  {
    out := choices;
    for k := 0 to |aliases|
      invariant out == choices + aliases[..k]
    {
      assert aliases[..k + 1] == aliases[..k] + [aliases[k]];
      out := out + [aliases[k]];
    }
    assert aliases[..|aliases|] == aliases;
  }

  /** `complete_subcommands`, pushing names and aliases in a loop. */
  method CompleteSubcommands(cmd: Command, ctoken: string) returns (r: seq<string>)
    ensures r == SubcommandChoices(cmd, ctoken)
  {
    var choices := [];
    for i := 0 to |cmd.subcommands|
      invariant choices == SubcommandCandidates(cmd.subcommands[..i])
    {
      CandidatesStep(cmd.subcommands, i);
      var subcommand := cmd.subcommands[i].value;
      if !subcommand.hide {
        choices := choices + [subcommand.name];
        choices := PushAliases(subcommand.aliases, choices);
      }
    }
    assert cmd.subcommands[..|cmd.subcommands|] == cmd.subcommands;
    r := Sort(WithPrefix(choices, ctoken));
  }

  // ---------------------------------------------------------------------
  // Flag names
  // ---------------------------------------------------------------------

  /** The long names of the flags in scope that are not hidden, in order. */
  function LongNames(flags: seq<Entry<Flag>>): seq<string> {
    if flags == [] then []
    else
      var f := flags[|flags| - 1].value;
      LongNames(flags[..|flags| - 1]) + if f.hide then [] else f.long
  }

  /** The short names of the flags in scope that are not hidden, in order. */
  function ShortNames(flags: seq<Entry<Flag>>): seq<char> {
    if flags == [] then []
    else
      var f := flags[|flags| - 1].value;
      ShortNames(flags[..|flags| - 1]) + if f.hide then [] else f.short
  }

  /** Some flag in scope that is not hidden has the long name `l`. */
  ghost predicate HasLong(flags: seq<Entry<Flag>>, l: string) {
    exists i :: 0 <= i < |flags| && !flags[i].value.hide && l in flags[i].value.long
  }

  /** Some flag in scope that is not hidden has the short name `c`. */
  ghost predicate HasShort(flags: seq<Entry<Flag>>, c: char) {
    exists i :: 0 <= i < |flags| && !flags[i].value.hide && c in flags[i].value.short
  }

  lemma {:induction false} LongNamesOf(flags: seq<Entry<Flag>>, l: string)
    ensures l in LongNames(flags) <==> HasLong(flags, l)
  {
    if flags != [] {
      var init := flags[..|flags| - 1];
      var f := flags[|flags| - 1].value;
      LongNamesOf(init, l);
      if l in LongNames(flags) {
        if l in LongNames(init) {
          var i :| 0 <= i < |init| && !init[i].value.hide && l in init[i].value.long;
          assert flags[i] == init[i];
        } else {
          assert !flags[|flags| - 1].value.hide && l in flags[|flags| - 1].value.long;
        }
      }
      if HasLong(flags, l) {
        var i :| 0 <= i < |flags| && !flags[i].value.hide && l in flags[i].value.long;
        if i < |init| {
          assert init[i] == flags[i];
        }
      }
    }
  }

  lemma {:induction false} ShortNamesOf(flags: seq<Entry<Flag>>, c: char)
    ensures c in ShortNames(flags) <==> HasShort(flags, c)
  {
    if flags != [] {
      var init := flags[..|flags| - 1];
      ShortNamesOf(init, c);
      if c in ShortNames(flags) {
        if c in ShortNames(init) {
          var i :| 0 <= i < |init| && !init[i].value.hide && c in init[i].value.short;
          assert flags[i] == init[i];
        } else {
          assert !flags[|flags| - 1].value.hide && c in flags[|flags| - 1].value.short;
        }
      }
      if HasShort(flags, c) {
        var i :| 0 <= i < |flags| && !flags[i].value.hide && c in flags[i].value.short;
        if i < |init| {
          assert init[i] == flags[i];
        }
      }
    }
  }

  lemma InChars(cs: seq<char>, c: char)
    ensures [c] in Chars(cs) <==> c in cs
  {
    if c in cs {
      var k :| 0 <= k < |cs| && cs[k] == c;
      assert Chars(cs)[k] == [c];
    }
    if [c] in Chars(cs) {
      var k :| 0 <= k < |cs| && Chars(cs)[k] == [c];
      assert [cs[k]][0] == c;
    }
  }

  /** Filter by a prefix, put a marker in front, sort: the shape shared by
      both flag-name completers. */
  function Choices(marker: string, names: seq<string>, p: string): seq<string> {
    Sort(Prefixed(marker, WithPrefix(names, p)))
  }

  lemma InSort(xs: seq<string>, x: string)
    ensures x in Sort(xs) <==> x in xs
  {
    assert x in Sort(xs) <==> x in multiset(Sort(xs));
    assert x in xs <==> x in multiset(xs);
  }

  lemma InWithPrefix(xs: seq<string>, p: string, x: string)
    ensures x in WithPrefix(xs, p) <==> x in xs && StartsWith(x, p)
  {
    assert x in WithPrefix(xs, p) <==> x in multiset(WithPrefix(xs, p));
    assert x in xs <==> x in multiset(xs);
  }

  /** A marked name is offered exactly when the name is one of the names and
      starts with the prefix. */
  lemma InChoices(marker: string, names: seq<string>, p: string, y: string)
    ensures marker + y in Choices(marker, names, p) <==> y in names && StartsWith(y, p)
  {
    var xs := WithPrefix(names, p);
    InSort(Prefixed(marker, xs), marker + y);
    InWithPrefix(names, p, y);
    if marker + y in Prefixed(marker, xs) {
      var i :| 0 <= i < |xs| && Prefixed(marker, xs)[i] == marker + y;
      assert (marker + y)[|marker|..] == y;
      assert (marker + xs[i])[|marker|..] == xs[i];
    }
    if y in xs {
      var i :| 0 <= i < |xs| && xs[i] == y;
      assert Prefixed(marker, xs)[i] == marker + y;
    }
  }

  lemma PrefixOfPrefix(s: string, p: string, q: string)
    requires StartsWith(s, p) && StartsWith(p, q)
    ensures StartsWith(s, q)
  {
    assert s[..|q|] == s[..|p|][..|q|];
  }

  /** Every offered word starts with the marker followed by the prefix. */
  lemma ChoicesExtend(marker: string, names: seq<string>, p: string, w: string)
    requires w in Choices(marker, names, p)
    ensures StartsWith(w, marker) && StartsWith(w, marker + p)
  {
    var xs := WithPrefix(names, p);
    InSort(Prefixed(marker, xs), w);
    var i :| 0 <= i < |xs| && Prefixed(marker, xs)[i] == w;
    InWithPrefix(names, p, xs[i]);
    assert w == marker + xs[i];
    assert w[..|marker + p|] == marker + xs[i][..|p|];
  }

  /** Distinct names give sorted, distinct choices. */
  lemma ChoicesDistinct(marker: string, names: seq<string>, p: string)
    requires Distinct(names)
    ensures Sorted(Choices(marker, names, p)) && Distinct(Choices(marker, names, p))
  {
    FilterDistinct(names, p);
    PrefixedDistinct(marker, WithPrefix(names, p));
    SortDistinct(Prefixed(marker, WithPrefix(names, p)));
  }

  /** `complete_long_flag_names`: the distinct long names starting with the
      token (less a leading `--`), as `--name`, sorted. */
  function LongChoices(flags: seq<Entry<Flag>>, ctoken: string): seq<string> {
    Choices("--", Unique(LongNames(flags)), TrimPrefix(ctoken, "--"))
  }

  /** The second character of the token, which selects one short name. */
  function ShortSelector(ctoken: string): string {
    if |ctoken| >= 2 then [ctoken[1]] else ""
  }

  /** A short name passes the selector when the token has no second
      character or has that name there. */
  lemma SelectorMatch(ctoken: string, c: char)
    ensures StartsWith([c], ShortSelector(ctoken)) <==> |ctoken| < 2 || ctoken[1] == c
  {
    if |ctoken| >= 2 {
      assert [c][..1] == [c];
    } else {
      assert [c][..0] == "";
    }
  }

  /** A short token of at most two characters is `-` and its selector. */
  lemma SelectorRest(ctoken: string)
    requires StartsWith(ctoken, "-") && |ctoken| <= 2
    ensures ctoken == "-" + ShortSelector(ctoken)
  {
  }

  /** `complete_short_flag_names`: the distinct short names, all of them
      when the token has no second character and only that character
      otherwise, as `-c`, sorted. */
  function ShortChoices(flags: seq<Entry<Flag>>, ctoken: string): seq<string> {
    Choices("-", Unique(Chars(ShortNames(flags))), ShortSelector(ctoken))
  }

  /** The long choices are sorted and distinct, and `--l` is offered exactly
      when `l` is a long name of a flag in scope that is not hidden and `l`
      starts with the token less its leading `--`. */
  lemma LongChoicesSpec(flags: seq<Entry<Flag>>, ctoken: string)
    ensures Sorted(LongChoices(flags, ctoken)) && Distinct(LongChoices(flags, ctoken))
    ensures forall l :: "--" + l in LongChoices(flags, ctoken) <==>
      StartsWith(l, TrimPrefix(ctoken, "--")) && HasLong(flags, l)
  {
    ChoicesDistinct("--", Unique(LongNames(flags)), TrimPrefix(ctoken, "--"));
    forall l ensures "--" + l in LongChoices(flags, ctoken) <==>
      StartsWith(l, TrimPrefix(ctoken, "--")) && HasLong(flags, l)
    {
      InChoices("--", Unique(LongNames(flags)), TrimPrefix(ctoken, "--"), l);
      LongNamesOf(flags, l);
    }
  }

  /** The short choices are sorted and distinct, and `-c` is offered exactly
      when `c` is a short name of a flag in scope that is not hidden and the
      token has no second character or has `c` there. */
  lemma ShortChoicesSpec(flags: seq<Entry<Flag>>, ctoken: string)
    ensures Sorted(ShortChoices(flags, ctoken)) && Distinct(ShortChoices(flags, ctoken))
    ensures forall c: char :: "-" + [c] in ShortChoices(flags, ctoken) <==>
      (|ctoken| < 2 || ctoken[1] == c) && HasShort(flags, c)
  {
    ChoicesDistinct("-", Unique(Chars(ShortNames(flags))), ShortSelector(ctoken));
    forall c: char ensures "-" + [c] in ShortChoices(flags, ctoken) <==>
      (|ctoken| < 2 || ctoken[1] == c) && HasShort(flags, c)
    {
      InChoices("-", Unique(Chars(ShortNames(flags))), ShortSelector(ctoken), [c]);
      SelectorMatch(ctoken, c);
      ShortNamesOf(flags, c);
      InChars(ShortNames(flags), c);
    }
  }

  // ---------------------------------------------------------------------
  // complete_word
  // ---------------------------------------------------------------------

  /** What the completer produces: the words to offer, or the argument whose
      values the spec's completion (a builtin or a `run` script) supplies. */
  datatype Completion =
    | Offer(choices: seq<string>)
    | ArgValues(arg: Arg, ctoken: string, ctx: Context)

  /** The choice of completer, first match wins: subcommands when the
      command has any; `-` gives the short then the long names; `--…` the
      long names; `-…` the short names; then the flag waiting for a value,
      then the next positional argument; otherwise nothing. A waiting flag
      without an argument is the `unwrap` panic. */
  function Dispatch(out: LegacyCli.Output, ctoken: string, ctx: Context): (r: Result<Completion, Failure>)
    ensures r.Err? <==> out.cmd.subcommands == [] && !StartsWith(ctoken, "-")
                        && out.awaiting.Some? && out.awaiting.value.arg.None?
    ensures out.cmd.subcommands == [] && !StartsWith(ctoken, "-") && out.awaiting.None? && |out.args| >= |out.cmd.args|
            ==> r == Ok(Offer([]))
  {
    if out.cmd.subcommands != [] then Ok(Offer(SubcommandChoices(out.cmd, ctoken)))
    else if ctoken == "-" then Ok(Offer(ShortChoices(out.available, "") + LongChoices(out.available, "")))
    else if StartsWith(ctoken, "--") then Ok(Offer(LongChoices(out.available, ctoken)))
    else if StartsWith(ctoken, "-") then Ok(Offer(ShortChoices(out.available, ctoken)))
    else if out.awaiting.Some? then
      if out.awaiting.value.arg.Some? then Ok(ArgValues(out.awaiting.value.arg.value, ctoken, ctx)) else Err(Panic)
    else if |out.args| < |out.cmd.args| then Ok(ArgValues(out.cmd.args[|out.args|], ctoken, ctx))
    else Ok(Offer([]))
  }

  /** `complete_word`: parse the words before the current one with the
      legacy parser, then pick the completer for the current word. */
  function Complete(spec: Spec, words: seq<string>, cword: Option<nat>): (r: Result<Completion, Failure>)
    ensures LegacyCli.Parse(spec, Before(words, Current(words, cword))).Err? ==>
              r == Err(LegacyCli.Parse(spec, Before(words, Current(words, cword))).error)
    ensures LegacyCli.Parse(spec, Before(words, Current(words, cword))).Ok? &&
            LegacyCli.Parse(spec, Before(words, Current(words, cword))).value.cmd.subcommands != [] ==>
              r.Ok? && r.value.Offer?
  {
    var c := Current(words, cword);
    var ctoken := Token(words, c);
    match LegacyCli.Parse(spec, Before(words, c))
    case Err(f) => Err(f)
    case Ok(out) => Dispatch(out, ctoken, Context(words, c, Prev(c)))
  }

  /** For a bare `-` every short and every long name is offered, and each
      starts with `-`. */
  lemma BareDash(flags: seq<Entry<Flag>>)
    ensures forall w :: w in ShortChoices(flags, "") + LongChoices(flags, "") ==> StartsWith(w, "-")
  {
    ShortsDash(flags, "");
    LongsDash(flags, "");
    AllStartConcat(ShortChoices(flags, ""), LongChoices(flags, ""), "-");
  }

  lemma ShortsDash(flags: seq<Entry<Flag>>, ctoken: string)
    ensures forall w :: w in ShortChoices(flags, ctoken) ==> StartsWith(w, "-")
  {
    AllExtend("-", Unique(Chars(ShortNames(flags))), ShortSelector(ctoken), "-");
  }

  lemma LongsDash(flags: seq<Entry<Flag>>, ctoken: string)
    ensures forall w :: w in LongChoices(flags, ctoken) ==> StartsWith(w, "-")
  {
    AllExtend("--", Unique(LongNames(flags)), TrimPrefix(ctoken, "--"), "-");
  }

  /** Every offered word starts with a given prefix of the marker. */
  lemma AllExtend(marker: string, names: seq<string>, p: string, q: string)
    requires StartsWith(marker, q)
    ensures forall w :: w in Choices(marker, names, p) ==> StartsWith(w, q)
  {
    forall w | w in Choices(marker, names, p) ensures StartsWith(w, q) {
      ChoicesExtend(marker, names, p, w);
      PrefixOfPrefix(w, marker, q);
    }
  }

  lemma AllStartConcat(a: seq<string>, b: seq<string>, q: string)
    requires forall w :: w in a ==> StartsWith(w, q)
    requires forall w :: w in b ==> StartsWith(w, q)
    ensures forall w :: w in a + b ==> StartsWith(w, q)
  {
  }

  /** Subcommand names, long names, a bare `-` and a one-letter short token
      only ever offer words that extend the token. */
  lemma OffersExtendToken(out: LegacyCli.Output, ctoken: string, ctx: Context)
    requires Dispatch(out, ctoken, ctx).Ok? && Dispatch(out, ctoken, ctx).value.Offer?
    requires out.cmd.subcommands != [] || StartsWith(ctoken, "--") || |ctoken| <= 2
    ensures forall w :: w in Dispatch(out, ctoken, ctx).value.choices ==> StartsWith(w, ctoken)
  {
    var r := Dispatch(out, ctoken, ctx).value.choices;
    var longs, shorts := Unique(LongNames(out.available)), Unique(Chars(ShortNames(out.available)));
    if out.cmd.subcommands != [] {
      SubcommandChoicesSpec(out.cmd, ctoken);
    } else if ctoken == "-" {
      BareDash(out.available);
    } else if StartsWith(ctoken, "--") {
      forall w | w in r ensures StartsWith(w, ctoken) {
        ChoicesExtend("--", longs, TrimPrefix(ctoken, "--"), w);
      }
    } else if StartsWith(ctoken, "-") {
      SelectorRest(ctoken);
      forall w | w in r ensures StartsWith(w, ctoken) {
        ChoicesExtend("-", shorts, ShortSelector(ctoken), w);
      }
    }
  }

  /** Argument values are wanted only for a token that is not a flag and
      only when the command has no subcommands: for the flag waiting for a
      value, or else for the first positional argument not yet filled. */
  lemma ArgValuesWhen(out: LegacyCli.Output, ctoken: string, ctx: Context)
    requires Dispatch(out, ctoken, ctx).Ok? && Dispatch(out, ctoken, ctx).value.ArgValues?
    ensures out.cmd.subcommands == [] && !StartsWith(ctoken, "-")
    ensures out.awaiting.Some? ==> Some(Dispatch(out, ctoken, ctx).value.arg) == out.awaiting.value.arg
    ensures out.awaiting.None? ==> |out.args| < |out.cmd.args| && Dispatch(out, ctoken, ctx).value.arg == out.cmd.args[|out.args|]
  {
  }

  /** `complete_word` with the current word, the parsed words and the
      template context computed step by step. */
  method CompleteWord(spec: Spec, words: seq<string>, cword: Option<nat>) returns (r: Result<Completion, Failure>)
    ensures r == Complete(spec, words, cword)
  {
    var c := Current(words, cword);
    var ctoken := Token(words, c);
    var before := Before(words, c);
    var ctx := Context(words, c, Prev(c));
    var parsed := LegacyCli.ParseWords(spec, before);
    if parsed.Err? {
      return Err(parsed.error);
    }
    var out := parsed.value;
    if out.cmd.subcommands != [] {
      var choices := CompleteSubcommands(out.cmd, ctoken);
      r := Ok(Offer(choices));
    } else {
      r := Dispatch(out, ctoken, ctx);
    }
  }
}
