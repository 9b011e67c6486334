/** A flag's printed usage reads back as the same flag (lib/src/spec/flag.rs,
    `SpecFlag::usage` against `FromStr for SpecFlag`), for flags whose
    names the grammar can print: at most one short and one long name, and
    names and argument free of spaces, dots and ellipses. */
module FlagUsageRoundTrip {
  import opened Wrappers
  import opened Strings
  import opened UsageSpec
  import opened SpecArgs
  import opened SpecFlags

  /** Text read back as a single part. */
  predicate PlainWord(w: string) {
    w != [] && NoSpace(w) && '.' !in w && Ellipsis[0] !in w
  }

  function NameWords(f: Flag): seq<string> {
    if NameFromShortAndLong(f.short, f.long) != f.name then [f.name + ":"] else []
  }

  function ShortWords(f: Flag): seq<string> {
    if f.short != [] then ["-" + [f.short[0]]] else []
  }

  function LongWords(f: Flag): seq<string> {
    if f.long != [] then ["--" + f.long[0]] else []
  }

  /** The parts before the ellipsis and the argument. */
  function HeadWords(f: Flag): seq<string> {
    NameWords(f) + ShortWords(f) + LongWords(f)
  }

  /** Flags whose usage the grammar reads back. */
  predicate Printable(f: Flag) {
    && |f.short| <= 1 && |f.long| <= 1
    && (NameWords(f) != [] ==> f.name != [] && PlainWord(f.name + ":"))
    && (f.short != [] ==>
          PlainWord("-" + [f.short[0]]) && f.short[0] < 128 as char && f.short[0] != ':' && f.short[0] != '-')
    && (f.long != [] ==> PlainWord("--" + f.long[0]) && !EndsWith("--" + f.long[0], ":"))
    && (f.arg.Some? ==> PlainWord(UsageBody(f.arg.value)) && f.arg.value.doubleDash == Optional)
  }

  /** The ellipsis after normalisation. */
  function Pad(b: bool): string {
    if b then " " + Ellipsis + " " else ""
  }

  function R(x: string): string {
    Replace(x, Ellipsis, " " + Ellipsis + " ")
  }

  lemma RAbsent(x: string)
    requires Ellipsis[0] !in x
    ensures R(x) == x
  {
    NoFirstCharNoContains(x, Ellipsis);
    ReplaceAbsent(x, Ellipsis, " " + Ellipsis + " ");
  }

  lemma RCat(x: string, y: string)
    ensures R(x + y) == R(x) + R(y)
  {
    assert Ellipsis == [Ellipsis[0]];
    ReplaceCharPatternAppend(x, y, Ellipsis[0], " " + Ellipsis + " ");
  }

  lemma REllipsis(b: bool)
    ensures R(if b then Ellipsis else "") == Pad(b)
  {
    if b {
      assert Ellipsis[..|Ellipsis|] == Ellipsis && Ellipsis[|Ellipsis|..] == [];
      assert R(Ellipsis) == " " + Ellipsis + " " + R([]);
    }
  }

  /** The usage is the head parts joined, then the ellipsis, then the
      argument. */
  lemma UsageSplit(f: Flag)
    ensures var out := Join(HeadWords(f), " ") + (if f.variadic then Ellipsis else "");
      FlagUsage(f) == if f.arg.Some? then out + " " + ArgUsage(f.arg.value) else out
  {
  }

  lemma HeadPlain(f: Flag)
    requires Printable(f)
    ensures forall k :: 0 <= k < |HeadWords(f)| ==> PlainWord(HeadWords(f)[k])
    ensures '.' !in Join(HeadWords(f), " ") && Ellipsis[0] !in Join(HeadWords(f), " ")
  {
    var h := HeadWords(f);
    assert forall k :: 0 <= k < |h| ==> h[k] in NameWords(f) || h[k] in ShortWords(f) || h[k] in LongWords(f);
    NotInJoin(h, " ", '.');
    NotInJoin(h, " ", Ellipsis[0]);
  }

  /** The argument's part of the usage after normalisation. */
  lemma NormalizeArg(a: Arg)
    requires PlainWord(UsageBody(a))
    ensures R(" " + ArgUsage(a)) == " " + UsageBody(a) + Pad(a.variadic)
  {
    var e2 := if a.variadic then Ellipsis else "";
    assert ArgUsage(a) == UsageBody(a) + e2;
    RCat(" ", ArgUsage(a));
    RAbsent(" ");
    RCat(UsageBody(a), e2);
    RAbsent(UsageBody(a));
    REllipsis(a.variadic);
    ConcatAssoc(" ", UsageBody(a), Pad(a.variadic));
  }

  /** Normalising the usage sets its ellipses apart and changes nothing else. */
  lemma NormalizeUsage(f: Flag)
    requires Printable(f)
    ensures Normalize(FlagUsage(f)) ==
      Join(HeadWords(f), " ") + Pad(f.variadic)
        + (if f.arg.Some? then " " + UsageBody(f.arg.value) + Pad(f.arg.value.variadic) else "")
  {
    var j := Join(HeadWords(f), " ");
    var e1 := if f.variadic then Ellipsis else "";
    HeadPlain(f);
    UsageSplit(f);
    var u := FlagUsage(f);
    assert '.' !in u;
    NoFirstCharNoContains(u, "...");
    ReplaceAbsent(u, "...", Ellipsis);
    assert Normalize(u) == R(u);
    RCat(j, e1);
    RAbsent(j);
    REllipsis(f.variadic);
    assert R(j + e1) == j + Pad(f.variadic);
    if f.arg.Some? {
      var a := f.arg.value;
      ConcatAssoc(j + e1, " ", ArgUsage(a));
      RCat(j + e1, " " + ArgUsage(a));
      NormalizeArg(a);
    }
  }

  /** Words around a set-apart ellipsis. */
  lemma WordsPad(x: string, rest: string)
    ensures Words(x + (" " + Ellipsis + " ") + rest) == Words(x) + [Ellipsis] + Words(rest)
  {
    assert x + (" " + Ellipsis + " ") + rest == x + [' '] + (Ellipsis + " " + rest);
    WordsAround(x, ' ', Ellipsis + " " + rest);
    assert NoSpace(Ellipsis);
    WordsCons(Ellipsis, rest);
  }

  /** The argument's parts. */
  function ArgWords(a: Arg): seq<string> {
    [UsageBody(a)] + (if a.variadic then [Ellipsis] else [])
  }

  lemma WordsOfArg(a: Arg)
    requires PlainWord(UsageBody(a))
    ensures Words(UsageBody(a) + Pad(a.variadic)) == ArgWords(a)
  {
    var b := UsageBody(a);
    WordsOfWord(b);
    if a.variadic {
      WordsPad(b, "");
      assert b + Pad(true) == b + (" " + Ellipsis + " ") + "";
    } else {
      assert b + Pad(false) == b;
    }
  }

  /** The parts of the usage. */
  function UsageWords(f: Flag): seq<string> {
    HeadWords(f) + (if f.variadic then [Ellipsis] else []) + (if f.arg.Some? then ArgWords(f.arg.value) else [])
  }

  /** The words of the argument's part, with its leading space. */
  lemma WordsOfArgTail(a: Arg)
    requires PlainWord(UsageBody(a))
    ensures Words(" " + UsageBody(a) + Pad(a.variadic)) == ArgWords(a)
  {
    var body := UsageBody(a);
    var pad := Pad(a.variadic);
    WordsOfArg(a);
    ConcatAssoc(" ", body, pad);
    assert " " + (body + pad) == [] + [' '] + (body + pad);
    WordsAround([], ' ', body + pad);
  }

  /** The words of a head, an optional set-apart ellipsis and a tail that
      is empty or starts with a space. */
  lemma WordsOfPieces(j: string, v: bool, t: string)
    requires t == [] || t[0] == ' '
    ensures Words(j + Pad(v) + t) == Words(j) + (if v then [Ellipsis] else []) + Words(t)
  {
    if v {
      WordsPad(j, t);
    } else if t == [] {
      assert j + Pad(v) + t == j;
    } else {
      assert j + Pad(v) + t == j + [' '] + t[1..];
      WordsAround(j, ' ', t[1..]);
    }
  }

  lemma WordsOfUsage(f: Flag)
    requires Printable(f)
    ensures Words(Normalize(FlagUsage(f))) == UsageWords(f)
  {
    NormalizeUsage(f);
    HeadPlain(f);
    WordsJoin(HeadWords(f));
    var t := if f.arg.Some? then " " + UsageBody(f.arg.value) + Pad(f.arg.value.variadic) else "";
    if f.arg.Some? {
      WordsOfArgTail(f.arg.value);
    }
    WordsOfPieces(Join(HeadWords(f), " "), f.variadic, t);
  }

  // ---------------------------------------------------------------------
  // Reading the parts
  // ---------------------------------------------------------------------

  lemma {:induction false} ParsePartsAppend(flag: Flag, a: seq<string>, b: seq<string>)
    ensures ParseParts(flag, a + b) ==
      if ParseParts(flag, a).Err? then ParseParts(flag, a) else ParseParts(ParseParts(flag, a).value, b)
    decreases |a|
  {
    if a == [] {
      assert a + b == b;
    } else {
      assert (a + b)[0] == a[0] && (a + b)[1..] == a[1..] + b;
      match ParsePart(flag, a[0])
      case Err(_) =>
      case Ok(g) =>
        ParsePartsAppend(g, a[1..], b);
    }
  }

  lemma ParseOne(flag: Flag, w: string)
    ensures ParseParts(flag, [w]) == ParsePart(flag, w)
  {
    assert [w][1..] == [];
  }

  /** The head parts give the name, the short and the long name. */
  lemma ParseHead(f: Flag)
    requires Printable(f)
    ensures ParseParts(DefaultFlag, HeadWords(f)).Ok?
    ensures var r := ParseParts(DefaultFlag, HeadWords(f)).value;
      && r.name == (if NameWords(f) != [] then f.name else "") && r.short == f.short && r.long == f.long
      && !r.variadic && r.arg.None?
  {
    var g0 := DefaultFlag.(name := if NameWords(f) != [] then f.name else "");
    assert ParseParts(DefaultFlag, NameWords(f)) == Ok(g0) by {
      if NameWords(f) != [] {
        var w := f.name + ":";
        assert EndsWith(w, ":") && w[..|w| - 1] == f.name;
        ParseOne(DefaultFlag, w);
      }
    }
    var g1 := g0.(short := f.short);
    assert ParseParts(g0, ShortWords(f)) == Ok(g1) by {
      if f.short != [] {
        var w := "-" + [f.short[0]];
        assert !EndsWith(w, ":") && !StartsWith(w, "--") && StartsWith(w, "-");
        assert w[1..] == [f.short[0]] && OneByte(w[1..]);
        assert f.short == [] + [w[1]];
        ParseOne(g0, w);
      }
    }
    var g2 := g1.(long := f.long);
    assert ParseParts(g1, LongWords(f)) == Ok(g2) by {
      if f.long != [] {
        var w := "--" + f.long[0];
        assert StartsWith(w, "--") && w[2..] == f.long[0];
        assert f.long == [] + [w[2..]];
        ParseOne(g1, w);
      }
    }
    ParsePartsAppend(DefaultFlag, NameWords(f), ShortWords(f));
    ParsePartsAppend(DefaultFlag, NameWords(f) + ShortWords(f), LongWords(f));
  }

  lemma ArgPart(g: Flag, b: string)
    requires !EndsWith(b, ":") && !StartsWith(b, "-") && b != Ellipsis && IsArgToken(b)
    ensures ParsePart(g, b) == Ok(g.(arg := Some(ArgFromStr(b))))
  {
  }

  lemma EllipsisPart(g: Flag)
    ensures ParsePart(g, Ellipsis) ==
      Ok(if g.arg.Some? then g.(arg := Some(g.arg.value.(variadic := true))) else g.(variadic := true))
  {
    NotEndsWithLast(Ellipsis, ":");
  }

  /** The bracketed usage of a printable argument is read as an argument
      with the same name, requiredness and double-dash mode. */
  lemma BodyReadsBack(a: Arg)
    requires PlainWord(UsageBody(a)) && a.doubleDash == Optional
    ensures var b := UsageBody(a);
      && !EndsWith(b, ":") && !StartsWith(b, "-") && b != Ellipsis && IsArgToken(b)
      && ArgFromStr(b).name == a.name && ArgFromStr(b).required == a.required
      && !ArgFromStr(b).variadic && ArgFromStr(b).doubleDash == a.doubleDash
  {
    var b := UsageBody(a);
    UsageShape(a);
    NotEndsWithLast(b, ":");
    BracketedBy(b, b[0], b[|b| - 1]);
    if |a.name| >= 3 {
      assert b[3] == a.name[2];
    }
    var a0 := a.(variadic := false);
    UsageRoundTrip(a0);
    assert ArgUsage(a0) == b;
  }

  /** The argument's parts give the argument back. */
  lemma ParseArgWords(g: Flag, a: Arg)
    requires PlainWord(UsageBody(a)) && a.doubleDash == Optional
    ensures ParseParts(g, ArgWords(a)).Ok?
    ensures var r := ParseParts(g, ArgWords(a)).value;
      && r.name == g.name && r.short == g.short && r.long == g.long && r.variadic == g.variadic
      && r.arg.Some?
      && r.arg.value.name == a.name && r.arg.value.required == a.required
      && r.arg.value.variadic == a.variadic && r.arg.value.doubleDash == a.doubleDash
  {
    var b := UsageBody(a);
    BodyReadsBack(a);
    ArgPart(g, b);
    ParseOne(g, b);
    if a.variadic {
      ParseArgEllipsis(g, b);
      assert ArgWords(a) == [b] + [Ellipsis];
    } else {
      assert ArgWords(a) == [b];
    }
  }

  /** An argument word followed by the ellipsis makes the argument variadic. */
  lemma ParseArgEllipsis(g: Flag, b: string)
    requires ParseParts(g, [b]) == Ok(g.(arg := Some(ArgFromStr(b))))
    ensures ParseParts(g, [b] + [Ellipsis]) == Ok(g.(arg := Some(ArgFromStr(b).(variadic := true))))
  {
    var g1 := g.(arg := Some(ArgFromStr(b)));
    EllipsisPart(g1);
    ParseOne(g1, Ellipsis);
    ParsePartsAppend(g, [b], [Ellipsis]);
  }

  /** The usage's parts give the names, the variadicity and the argument. */
  lemma ParseUsageWords(f: Flag)
    requires Printable(f)
    ensures ParseParts(DefaultFlag, UsageWords(f)).Ok?
    ensures var r := ParseParts(DefaultFlag, UsageWords(f)).value;
      && r.name == (if NameWords(f) != [] then f.name else "") && r.short == f.short && r.long == f.long
      && r.variadic == f.variadic && r.arg.Some? == f.arg.Some?
      && (f.arg.Some? ==>
            && r.arg.value.name == f.arg.value.name && r.arg.value.required == f.arg.value.required
            && r.arg.value.variadic == f.arg.value.variadic && r.arg.value.doubleDash == f.arg.value.doubleDash)
  {
    ParseHead(f);
    var g0 := ParseParts(DefaultFlag, HeadWords(f)).value;
    var e := if f.variadic then [Ellipsis] else [];
    assert ParseParts(g0, e) == Ok(if f.variadic then g0.(variadic := true) else g0) by {
      if f.variadic {
        EllipsisPart(g0);
        ParseOne(g0, Ellipsis);
      }
    }
    ParsePartsAppend(DefaultFlag, HeadWords(f), e);
    var g1 := ParseParts(DefaultFlag, HeadWords(f) + e).value;
    if f.arg.Some? {
      ParseArgWords(g1, f.arg.value);
      ParsePartsAppend(DefaultFlag, HeadWords(f) + e, ArgWords(f.arg.value));
    } else {
      assert UsageWords(f) == HeadWords(f) + e;
    }
  }

  /** Reading a printable flag's usage gives back its names, its
      variadicity and its argument's name, requiredness, variadicity and
      double-dash mode; so the stored usage is the printed one again. */
  lemma UsageReadsBack(f: Flag)
    requires Printable(f)
    ensures FlagFromStr(FlagUsage(f)).Ok?
    ensures var g := FlagFromStr(FlagUsage(f)).value;
      && g.name == f.name && g.short == f.short && g.long == f.long && g.variadic == f.variadic
      && g.arg.Some? == f.arg.Some?
      && (f.arg.Some? ==>
            && g.arg.value.name == f.arg.value.name && g.arg.value.required == f.arg.value.required
            && g.arg.value.variadic == f.arg.value.variadic && g.arg.value.doubleDash == f.arg.value.doubleDash)
      && g.usage == FlagUsage(f)
  {
    WordsOfUsage(f);
    ParseUsageWords(f);
    var g := FlagFromStr(FlagUsage(f)).value;
    assert g.name == f.name;
    SameUsage(g, f);
  }

  /** The usage depends only on the names, the variadicity and what the
      argument's usage depends on. */
  lemma SameUsage(g: Flag, f: Flag)
    requires g.name == f.name && g.short == f.short && g.long == f.long && g.variadic == f.variadic
    requires g.arg.Some? == f.arg.Some?
    requires f.arg.Some? ==>
      && g.arg.value.name == f.arg.value.name && g.arg.value.required == f.arg.value.required
      && g.arg.value.variadic == f.arg.value.variadic && g.arg.value.doubleDash == f.arg.value.doubleDash
    ensures FlagUsage(g) == FlagUsage(f)
  {
    if f.arg.Some? {
      assert ArgUsage(g.arg.value) == ArgUsage(f.arg.value);
    }
  }
}
