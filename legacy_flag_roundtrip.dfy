/** A legacy flag's printed usage reads back as the same flag
    (src/parse/flag.rs, `SpecFlag::usage` against `FromStr for SpecFlag`),
    for flags whose names the grammar can print: at most one short and one
    long name, and names and argument free of spaces and dots. */
module LegacyFlagRoundTrip {
  import opened Wrappers
  import opened Strings
  import opened LegacyArgs
  import opened LegacyFlags
  import SpecFlags

  /** Text read back as a single part. */
  predicate PlainWord(w: string) {
    w != [] && NoSpace(w) && '.' !in w
  }

  function NameWords(f: LegacyFlag): seq<string> {
    if NameFromShortAndLong(f.short, f.long).GetOr("") != f.name then [f.name + ":"] else []
  }

  function ShortWords(f: LegacyFlag): seq<string> {
    if f.short != [] then ["-" + [f.short[0]]] else []
  }

  function LongWords(f: LegacyFlag): seq<string> {
    if f.long != [] then ["--" + f.long[0]] else []
  }

  /** The parts before the dots and the argument. */
  function HeadWords(f: LegacyFlag): seq<string> {
    NameWords(f) + ShortWords(f) + LongWords(f)
  }

  /** The argument's usage without its trailing dots. */
  function ArgBody(a: LegacyArg): string {
    if a.required then "<" + a.name + ">" else "[" + a.name + "]"
  }

  /** Flags whose usage the grammar reads back. */
  predicate Printable(f: LegacyFlag) {
    && |f.short| <= 1 && |f.long| <= 1
    && (NameWords(f) != [] ==> f.name != [] && PlainWord(f.name + ":"))
    && (f.short != [] ==>
          PlainWord("-" + [f.short[0]]) && f.short[0] < 128 as char && f.short[0] != ':' && f.short[0] != '-')
    && (f.long != [] ==> PlainWord("--" + f.long[0]) && !EndsWith("--" + f.long[0], ":"))
    && (f.arg.Some? ==> PlainWord(ArgBody(f.arg.value)))
  }

  /** The dots after padding. */
  function Pad(b: bool): string {
    if b then " " + Dots + " " else ""
  }

  // ---------------------------------------------------------------------
  // The padded usage
  // ---------------------------------------------------------------------

  /** Text without a dot passes through the padding unchanged. */
  lemma {:induction false} PadDotFree(a: string, b: string)
    requires '.' !in a
    ensures PadDots(a + b) == a + PadDots(b)
    decreases |a|
  {
    if a != [] {
      var s := a + b;
      assert s[0] == a[0];
      if |s| >= 3 {
        assert s[..3] != Dots by { assert s[..3][0] == a[0]; }
        assert s[1..] == a[1..] + b;
      } else {
        assert |b| < 3;
      }
      PadDotFree(a[1..], b);
      assert a == [a[0]] + a[1..];
    } else {
      assert a + b == b;
    }
  }

  lemma PadDotsLead(b: string)
    ensures PadDots(Dots + b) == " " + Dots + " " + PadDots(b)
  {
    var s := Dots + b;
    assert s[..3] == Dots && s[3..] == b;
  }

  lemma PadMaybe(v: bool, t: string)
    ensures PadDots(DotsIf(v) + t) == Pad(v) + PadDots(t)
  {
    if v {
      PadDotsLead(t);
    } else {
      assert "" + t == t;
    }
  }

  function DotsIf(v: bool): string {
    if v then Dots else ""
  }

  /** The argument's part of the usage, with its leading space. */
  function ArgTail(f: LegacyFlag): string {
    if f.arg.Some? then " " + ArgBody(f.arg.value) + DotsIf(f.arg.value.variadic) else ""
  }

  /** The head of the usage is the head parts joined, then the dots. */
  lemma HeadSplit(f: LegacyFlag)
    ensures LegacyUsageHead(f) == Join(HeadWords(f), " ") + DotsIf(f.variadic)
  {
    if !f.variadic {
      assert Join(HeadWords(f), " ") + "" == Join(HeadWords(f), " ");
    }
  }

  /** The argument's part of the usage, with its leading space. */
  lemma TailSplit(a: LegacyArg)
    ensures " " + LegacyArgUsage(a) == " " + ArgBody(a) + DotsIf(a.variadic)
  {
    var b := ArgBody(a);
    if a.variadic {
      ConcatAssoc(" ", b, Dots);
    } else {
      assert b + "" == b;
    }
  }

  /** The usage is the head parts joined, then the dots, then the
      argument. */
  lemma UsageSplit(f: LegacyFlag)
    ensures LegacyFlagUsage(f) == Join(HeadWords(f), " ") + (DotsIf(f.variadic) + ArgTail(f))
  {
    var j := Join(HeadWords(f), " ");
    HeadSplit(f);
    if f.arg.Some? {
      TailSplit(f.arg.value);
      ConcatAssoc(j, DotsIf(f.variadic), ArgTail(f));
    } else {
      assert DotsIf(f.variadic) + "" == DotsIf(f.variadic);
    }
  }

  lemma HeadPlain(f: LegacyFlag)
    requires Printable(f)
    ensures forall k :: 0 <= k < |HeadWords(f)| ==> PlainWord(HeadWords(f)[k])
    ensures '.' !in Join(HeadWords(f), " ")
  {
    var h := HeadWords(f);
    assert forall k :: 0 <= k < |h| ==> h[k] in NameWords(f) || h[k] in ShortWords(f) || h[k] in LongWords(f);
    NotInJoin(h, " ", '.');
  }

  /** The argument's part after padding. */
  lemma PadArg(a: LegacyArg)
    requires PlainWord(ArgBody(a))
    ensures PadDots(" " + ArgBody(a) + DotsIf(a.variadic)) == " " + ArgBody(a) + Pad(a.variadic)
  {
    var d := DotsIf(a.variadic);
    PadDotFree(" " + ArgBody(a), d);
    PadMaybe(a.variadic, "");
    assert d + "" == d;
    assert Replace("", Dots, " " + Dots + " ") == "";
  }

  /** Padding the usage sets its dots apart and changes nothing else. */
  lemma PadUsage(f: LegacyFlag)
    requires Printable(f)
    ensures PadDots(LegacyFlagUsage(f)) ==
      Join(HeadWords(f), " ") + (Pad(f.variadic) + PadDots(ArgTail(f)))
  {
    var j := Join(HeadWords(f), " ");
    HeadPlain(f);
    UsageSplit(f);
    PadDotFree(j, DotsIf(f.variadic) + ArgTail(f));
    PadMaybe(f.variadic, ArgTail(f));
  }

  /** The padded argument part. */
  lemma PadTail(f: LegacyFlag)
    requires Printable(f)
    ensures PadDots(ArgTail(f)) == if f.arg.Some? then " " + ArgBody(f.arg.value) + Pad(f.arg.value.variadic) else ""
  {
    if f.arg.Some? {
      PadArg(f.arg.value);
    } else {
      assert Replace("", Dots, " " + Dots + " ") == "";
    }
  }

  // ---------------------------------------------------------------------
  // The words of the padded usage
  // ---------------------------------------------------------------------

  lemma PadSplit(x: string, rest: string)
    ensures x + (" " + Dots + " ") + rest == x + [' '] + (Dots + " " + rest)
  {
  }

  lemma DotsWord(rest: string)
    ensures Words(Dots + " " + rest) == [Dots] + Words(rest)
  {
    assert NoSpace(Dots);
    WordsCons(Dots, rest);
  }

  /** Words around set-apart dots. */
  lemma WordsPad(x: string, rest: string)
    ensures Words(x + (" " + Dots + " ") + rest) == Words(x) + [Dots] + Words(rest)
  {
    PadSplit(x, rest);
    WordsAround(x, ' ', Dots + " " + rest);
    DotsWord(rest);
  }

  /** The argument's parts. */
  function ArgWords(a: LegacyArg): seq<string> {
    [ArgBody(a)] + (if a.variadic then [Dots] else [])
  }

  /** The parts of the usage. */
  function UsageWords(f: LegacyFlag): seq<string> {
    HeadWords(f) + (if f.variadic then [Dots] else []) + (if f.arg.Some? then ArgWords(f.arg.value) else [])
  }

  lemma WordsOfArgTail(a: LegacyArg)
    requires PlainWord(ArgBody(a))
    ensures Words(" " + ArgBody(a) + Pad(a.variadic)) == ArgWords(a)
  {
    var b := ArgBody(a);
    WordsOfWord(b);
    if a.variadic {
      WordsPad(b, "");
      assert b + Pad(true) == b + (" " + Dots + " ") + "";
    } else {
      assert b + Pad(false) == b;
    }
    ConcatAssoc(" ", b, Pad(a.variadic));
    assert " " + (b + Pad(a.variadic)) == [] + [' '] + (b + Pad(a.variadic));
    WordsAround([], ' ', b + Pad(a.variadic));
  }

  /** The words of a head, optional set-apart dots and a tail that is empty
      or starts with a space. */
  lemma WordsOfPieces(j: string, v: bool, t: string)
    requires t == [] || t[0] == ' '
    ensures Words(j + Pad(v) + t) == Words(j) + (if v then [Dots] else []) + Words(t)
  {
    if v {
      WordsPad(j, t);
    } else if t == [] {
      assert j + Pad(v) + t == j;
    } else {
      assert j + Pad(v) + t == j + [' '] + t[1..];
      WordsAround(j, ' ', t[1..]);
    }
  }

  lemma WordsOfUsage(f: LegacyFlag)
    requires Printable(f)
    ensures Words(PadDots(LegacyFlagUsage(f))) == UsageWords(f)
  {
    PadUsage(f);
    PadTail(f);
    HeadPlain(f);
    WordsJoin(HeadWords(f));
    var t := if f.arg.Some? then " " + ArgBody(f.arg.value) + Pad(f.arg.value.variadic) else "";
    if f.arg.Some? {
      WordsOfArgTail(f.arg.value);
    }
    ConcatAssoc(Join(HeadWords(f), " "), Pad(f.variadic), t);
    WordsOfPieces(Join(HeadWords(f), " "), f.variadic, t);
  }

  // ---------------------------------------------------------------------
  // Reading the parts
  // ---------------------------------------------------------------------

  lemma {:induction false} ParsePartsAppend(flag: LegacyFlag, a: seq<string>, b: seq<string>)
    ensures LegacyParseParts(flag, a + b) ==
      if LegacyParseParts(flag, a).Err? then LegacyParseParts(flag, a)
      else LegacyParseParts(LegacyParseParts(flag, a).value, b)
    decreases |a|
  {
    if a == [] {
      assert a + b == b;
    } else {
      assert (a + b)[0] == a[0] && (a + b)[1..] == a[1..] + b;
      match LegacyParsePart(flag, a[0])
      case Err(_) =>
      case Ok(g) =>
        ParsePartsAppend(g, a[1..], b);
    }
  }

  lemma ParseOne(flag: LegacyFlag, w: string)
    ensures LegacyParseParts(flag, [w]) == LegacyParsePart(flag, w)
  {
    assert [w][1..] == [];
  }

  /** The head parts give the name, the short and the long name. */
  lemma ParseHead(f: LegacyFlag)
    requires Printable(f)
    ensures LegacyParseParts(DefaultLegacyFlag, HeadWords(f)).Ok?
    ensures var r := LegacyParseParts(DefaultLegacyFlag, HeadWords(f)).value;
      && r.name == (if NameWords(f) != [] then f.name else "") && r.short == f.short && r.long == f.long
      && !r.variadic && r.arg.None?
  {
    var g0 := DefaultLegacyFlag.(name := if NameWords(f) != [] then f.name else "");
    assert LegacyParseParts(DefaultLegacyFlag, NameWords(f)) == Ok(g0) by {
      if NameWords(f) != [] {
        var w := f.name + ":";
        assert EndsWith(w, ":") && w[..|w| - 1] == f.name;
        ParseOne(DefaultLegacyFlag, w);
      }
    }
    var g1 := g0.(short := f.short);
    assert LegacyParseParts(g0, ShortWords(f)) == Ok(g1) by {
      if f.short != [] {
        var w := "-" + [f.short[0]];
        assert !EndsWith(w, ":") && !StartsWith(w, "--") && StartsWith(w, "-");
        assert w[1..] == [f.short[0]] && SpecFlags.OneByte(w[1..]);
        assert f.short == [] + [w[1]];
        ParseOne(g0, w);
      }
    }
    var g2 := g1.(long := f.long);
    assert LegacyParseParts(g1, LongWords(f)) == Ok(g2) by {
      if f.long != [] {
        var w := "--" + f.long[0];
        assert StartsWith(w, "--") && w[2..] == f.long[0];
        assert f.long == [] + [w[2..]];
        ParseOne(g1, w);
      }
    }
    ParsePartsAppend(DefaultLegacyFlag, NameWords(f), ShortWords(f));
    ParsePartsAppend(DefaultLegacyFlag, NameWords(f) + ShortWords(f), LongWords(f));
  }

  /** A bracketed part is read as the flag's argument. */
  lemma ArgTokenPart(g: LegacyFlag, b: string)
    requires !EndsWith(b, ":") && !StartsWith(b, "-") && b != Dots && SpecFlags.IsArgToken(b)
    ensures LegacyParsePart(g, b) == Ok(WithArg(g, b))
  {
  }

  /** The bracketed part of a printable argument is read as the argument. */
  lemma ArgPart(g: LegacyFlag, a: LegacyArg)
    requires PlainWord(ArgBody(a))
    ensures LegacyParsePart(g, ArgBody(a)) == Ok(WithArg(g, ArgBody(a)))
    ensures LegacyArgFromStr(ArgBody(a)).name == a.name && LegacyArgFromStr(ArgBody(a)).required == a.required
    ensures !LegacyArgFromStr(ArgBody(a)).variadic
  {
    var b := ArgBody(a);
    var o, c := if a.required then '<' else '[', if a.required then '>' else ']';
    assert b == [o] + a.name + [c];
    assert !EndsWith(b, ":") by { assert b[|b| - 1] == c; }
    assert !StartsWith(b, "-") && StartsWith(b, [o]) by { assert b[..1] == [o]; }
    assert EndsWith(b, [c]) by { assert b[|b| - 1..] == [c]; }
    assert b != Dots by { assert Dots[0] == '.'; }
    ArgTokenPart(g, b);
    LegacyFromStrBracketed(a.name);
  }

  /** The argument's parts give the argument back. */
  lemma ParseArgWords(g: LegacyFlag, a: LegacyArg)
    requires PlainWord(ArgBody(a))
    ensures LegacyParseParts(g, ArgWords(a)).Ok?
    ensures var r := LegacyParseParts(g, ArgWords(a)).value;
      && r.name == g.name && r.short == g.short && r.long == g.long && r.variadic == g.variadic
      && r.arg.Some?
      && r.arg.value.name == a.name && r.arg.value.required == a.required && r.arg.value.variadic == a.variadic
  {
    var b := ArgBody(a);
    ArgPart(g, a);
    var g1 := WithArg(g, b);
    ParseOne(g, b);
    if a.variadic {
      LegacyDotsPart(g1);
      ParseOne(g1, Dots);
      assert ArgWords(a) == [b] + [Dots];
      ParsePartsAppend(g, [b], [Dots]);
    }
  }

  /** The usage's parts give the names, the variadicity and the argument. */
  lemma ParseUsageWords(f: LegacyFlag)
    requires Printable(f)
    ensures LegacyParseParts(DefaultLegacyFlag, UsageWords(f)).Ok?
    ensures var r := LegacyParseParts(DefaultLegacyFlag, UsageWords(f)).value;
      && r.name == (if NameWords(f) != [] then f.name else "") && r.short == f.short && r.long == f.long
      && r.variadic == f.variadic && r.arg.Some? == f.arg.Some?
      && (f.arg.Some? ==>
            && r.arg.value.name == f.arg.value.name && r.arg.value.required == f.arg.value.required
            && r.arg.value.variadic == f.arg.value.variadic)
  {
    ParseHead(f);
    var g0 := LegacyParseParts(DefaultLegacyFlag, HeadWords(f)).value;
    var e := if f.variadic then [Dots] else [];
    assert LegacyParseParts(g0, e) == Ok(if f.variadic then g0.(variadic := true) else g0) by {
      if f.variadic {
        LegacyDotsPart(g0);
        ParseOne(g0, Dots);
      }
    }
    ParsePartsAppend(DefaultLegacyFlag, HeadWords(f), e);
    var g1 := LegacyParseParts(DefaultLegacyFlag, HeadWords(f) + e).value;
    if f.arg.Some? {
      ParseArgWords(g1, f.arg.value);
      ParsePartsAppend(DefaultLegacyFlag, HeadWords(f) + e, ArgWords(f.arg.value));
    } else {
      assert UsageWords(f) == HeadWords(f) + e;
    }
  }

  /** The usage depends only on the names, the variadicity and the
      argument's name, requiredness and variadicity. */
  lemma SameUsage(g: LegacyFlag, f: LegacyFlag)
    requires g.name == f.name && g.short == f.short && g.long == f.long && g.variadic == f.variadic
    requires g.arg.Some? == f.arg.Some?
    requires f.arg.Some? ==>
      && g.arg.value.name == f.arg.value.name && g.arg.value.required == f.arg.value.required
      && g.arg.value.variadic == f.arg.value.variadic
    ensures LegacyFlagUsage(g) == LegacyFlagUsage(f)
  {
    if f.arg.Some? {
      assert LegacyArgUsage(g.arg.value) == LegacyArgUsage(f.arg.value);
    }
  }

  /** Reading a printable flag's usage gives back its names, its
      variadicity and its argument's name, requiredness and variadicity;
      so printing what was read gives the same text (the `from_str`
      snapshots of flag.rs are of this form). */
  lemma UsageReadsBack(f: LegacyFlag)
    requires Printable(f)
    ensures LegacyFlagFromStr(LegacyFlagUsage(f)).Ok?
    ensures var g := LegacyFlagFromStr(LegacyFlagUsage(f)).value;
      && g.name == f.name && g.short == f.short && g.long == f.long && g.variadic == f.variadic
      && g.arg.Some? == f.arg.Some?
      && (f.arg.Some? ==>
            && g.arg.value.name == f.arg.value.name && g.arg.value.required == f.arg.value.required
            && g.arg.value.variadic == f.arg.value.variadic)
      && g.usage == LegacyFlagUsage(f)
  {
    WordsOfUsage(f);
    ParseUsageWords(f);
    var g := LegacyFlagFromStr(LegacyFlagUsage(f)).value;
    assert g.name == f.name;
    SameUsage(g, f);
  }
}
