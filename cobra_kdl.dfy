/** The KDL text the cobra integration writes for a spec
    (integrations/cobra/kdl.go). A small tree of KDL nodes and its printer is
    the reference; the render methods build the text piece by piece, as the
    Go code does with a `strings.Builder`, and are proved to print exactly the
    node tree of their input. */
module CobraKdl {
  import opened Wrappers
  import opened Strings
  import opened CobraSpec

  // ---------------------------------------------------------------------
  // Quoting
  // ---------------------------------------------------------------------

  /** Characters that cannot appear in a bare KDL identifier. */
  predicate IsKdlSpecial(c: char) {
    c == ' ' || c == '\t' || c == '\n' || c == '\r' || c == '"' || c == '\\' || c == '/'
    || c == '(' || c == ')' || c == '{' || c == '}' || c == ';' || c == '=' || c == '#'
    || c == '.' || c == ',' || c == ':'
  }

  /** Some character of `s` is special. */
  predicate HasSpecial(s: string) {
    s != [] && (IsKdlSpecial(s[0]) || HasSpecial(s[1..]))
  }

  lemma {:induction false} HasSpecialAt(s: string)
    ensures HasSpecial(s) <==> exists i :: 0 <= i < |s| && IsKdlSpecial(s[i])
  {
    if s != [] {
      HasSpecialAt(s[1..]);
      if HasSpecial(s[1..]) {
        var i :| 0 <= i < |s[1..]| && IsKdlSpecial(s[1..][i]);
        assert IsKdlSpecial(s[i + 1]);
      }
      if exists i :: 0 <= i < |s| && IsKdlSpecial(s[i]) {
        var i :| 0 <= i < |s| && IsKdlSpecial(s[i]);
        if i > 0 {
          assert IsKdlSpecial(s[1..][i - 1]);
        }
      }
    }
  }

  /** A value must be quoted when it is empty, starts with a digit or holds
      a special character. */
  predicate NeedsQuotes(s: string) {
    |s| == 0 || ('0' <= s[0] <= '9') || HasSpecial(s)
  }

  /** `needsQuoting`. */
  method NeedsQuoting(s: string) returns (b: bool)
    ensures b == NeedsQuotes(s)
  {
    if |s| == 0 {
      return true;
    }
    if '0' <= s[0] <= '9' {
      return true;
    }
    for i := 0 to |s|
      invariant HasSpecial(s) == HasSpecial(s[i..])
    {
      assert s[i..][1..] == s[i + 1..];
      if IsKdlSpecial(s[i]) {
        return true;
      }
    }
    return false;
  }

  /** The escaped form of one character: backslash and double quote get a
      backslash in front, everything else stays. */
  function EscapeChar(c: char): string {
    if c == '\\' then "\\\\" else if c == '"' then "\\\"" else [c]
  }

  function Escape(s: string): string {
    if s == [] then "" else EscapeChar(s[0]) + Escape(s[1..])
  }

  /** The reference quoting: escape, then wrap in double quotes. */
  function QuoteAlways(s: string): string {
    "\"" + Escape(s) + "\""
  }

  /** `kdlQuoteAlways`: two whole-string replacements, backslashes first. */
  method KdlQuoteAlways(s: string) returns (r: string)
    ensures r == QuoteAlways(s)
  {
    var t := Replace(s, "\\", "\\\\");
    t := Replace(t, "\"", "\\\"");
    EscapeByReplacing(s);
    r := "\"" + t + "\"";
  }

  /** Replacing backslashes and then quotes is the same as escaping each
      character: the backslashes the first step inserts are not touched by
      the second. */
  lemma {:induction false} EscapeByReplacing(s: string)
    ensures Replace(Replace(s, "\\", "\\\\"), "\"", "\\\"") == Escape(s)
  {
    if s != [] {
      var c := s[0];
      assert s == [c] + s[1..];
      ReplaceCharPatternAppend([c], s[1..], '\\', "\\\\");
      var first := Replace([c], "\\", "\\\\");
      ReplaceCharPatternAppend(first, Replace(s[1..], "\\", "\\\\"), '"', "\\\"");
      EscapeCharByReplacing(c);
      EscapeByReplacing(s[1..]);
    }
  }

  lemma EscapeCharByReplacing(c: char)
    ensures Replace(Replace([c], "\\", "\\\\"), "\"", "\\\"") == EscapeChar(c)
  {
    var first := Replace([c], "\\", "\\\\");
    assert first == if c == '\\' then "\\\\" else [c];
    if c == '\\' {
      ReplaceCharPatternAppend("\\", "\\", '"', "\\\"");
    }
  }

  /** `kdlQuote` as a value: bare when that is safe, quoted otherwise. */
  function KdlQuote(s: string): string {
    if s == "" then "\"\"" else if NeedsQuotes(s) then QuoteAlways(s) else s
  }

  /** `kdlQuote`. */
  method KdlQuoteMethod(s: string) returns (r: string)
    ensures r == KdlQuote(s)
  {
    if s == "" {
      return "\"\"";
    }
    var q := NeedsQuoting(s);
    if q {
      r := KdlQuoteAlways(s);
      return;
    }
    return s;
  }

  /** Reading a KDL string back: one backslash escapes the next character. */
  function Unescape(t: string): string {
    if t == [] then ""
    else if t[0] == '\\' && |t| >= 2 then [t[1]] + Unescape(t[2..])
    else [t[0]] + Unescape(t[1..])
  }

  /** A value as a KDL reader sees it: a quoted string is unescaped, a bare
      identifier is taken as it is. */
  function ReadValue(t: string): string {
    if |t| >= 2 && t[0] == '"' && t[|t| - 1] == '"' then Unescape(t[1..|t| - 1]) else t
  }

  lemma {:induction false} UnescapeEscape(s: string)
    ensures Unescape(Escape(s)) == s
  {
    if s != [] {
      UnescapeEscape(s[1..]);
      var e := Escape(s);
      assert e == EscapeChar(s[0]) + Escape(s[1..]);
      if s[0] == '\\' || s[0] == '"' {
        assert e[2..] == Escape(s[1..]);
      } else {
        assert e[1..] == Escape(s[1..]);
      }
    }
  }

  /** Whatever `kdlQuoteAlways` writes reads back as the original string. */
  lemma QuoteAlwaysRoundTrip(s: string)
    ensures ReadValue(QuoteAlways(s)) == s
  {
    var q := QuoteAlways(s);
    assert q[1..|q| - 1] == Escape(s);
    UnescapeEscape(s);
  }

  /** Whatever `kdlQuote` writes reads back as the original string, and it
      is left bare exactly when no quoting is needed. */
  lemma KdlQuoteRoundTrip(s: string)
    ensures ReadValue(KdlQuote(s)) == s
    ensures KdlQuote(s) == s <==> !NeedsQuotes(s)
  {
    if s == "" {
    } else if NeedsQuotes(s) {
      QuoteAlwaysRoundTrip(s);
      assert |KdlQuote(s)| >= |s| + 2 by { EscapeLength(s); }
    } else {
      assert !IsKdlSpecial(s[0]);
    }
  }

  lemma {:induction false} EscapeLength(s: string)
    ensures |Escape(s)| >= |s|
  {
    if s != [] {
      EscapeLength(s[1..]);
    }
  }

  // ---------------------------------------------------------------------
  // Nodes and their printer
  // ---------------------------------------------------------------------

  /** A KDL node: the text of its first line after the indentation (name,
      arguments and properties) and an optional children block. */
  datatype Node = Node(text: string, hasBlock: bool, children: seq<Node>)

  /** A node without a children block. */
  function Leaf(text: string): Node {
    Node(text, false, [])
  }

  /** A node with a children block. */
  function Block(text: string, children: seq<Node>): Node {
    Node(text, true, children)
  }

  /** Four spaces per level. */
  function Indent(depth: nat): string {
    if depth == 0 then "" else Indent(depth - 1) + "    "
  }

  /** One node at the given depth: its line indented four spaces per level,
      and for a block the children one level deeper and a closing brace at
      the node's own indentation. */
  function Print(n: Node, depth: nat): string
    decreases n, 1
  {
    Indent(depth) + n.text + if n.hasBlock then " {\n" + PrintAll(n.children, depth + 1) + Indent(depth) + "}\n" else "\n"
  }

  function PrintAll(ns: seq<Node>, depth: nat): string
    decreases ns, 0
  {
    if ns == [] then "" else PrintAll(ns[..|ns| - 1], depth) + Print(ns[|ns| - 1], depth)
  }

  lemma {:induction false} PrintAllAppend(a: seq<Node>, b: seq<Node>, depth: nat)
    ensures PrintAll(a + b, depth) == PrintAll(a, depth) + PrintAll(b, depth)
    decreases |b|
  {
    if b == [] {
      assert a + b == a;
    } else {
      var init := b[..|b| - 1];
      assert (a + b)[..|a + b| - 1] == a + init;
      PrintAllAppend(a, init, depth);
      ConcatAssoc(PrintAll(a, depth), PrintAll(init, depth), Print(b[|b| - 1], depth));
    }
  }

  lemma PrintAllSnoc(ns: seq<Node>, n: Node, depth: nat)
    ensures PrintAll(ns + [n], depth) == PrintAll(ns, depth) + Print(n, depth)
  {
    assert (ns + [n])[..|ns|] == ns;
  }

  /** Appending one printed node to the print of a sequence of nodes. */
  lemma PrintAllStep(printed: string, ns: seq<Node>, chunk: string, n: Node, depth: nat)
    requires printed == PrintAll(ns, depth) && chunk == Print(n, depth)
    ensures printed + chunk == PrintAll(ns + [n], depth)
  {
    PrintAllSnoc(ns, n, depth);
  }

  lemma PrintAllOne(n: Node, depth: nat)
    ensures PrintAll([n], depth) == Print(n, depth)
  {
    assert [n][..0] == [];
  }

  lemma PrintBlock(text: string, children: seq<Node>, depth: nat)
    ensures Print(Block(text, children), depth)
      == Indent(depth) + text + (" {\n" + PrintAll(children, depth + 1) + Indent(depth) + "}\n")
  {
  }

  lemma PrintLeaf(text: string, depth: nat)
    ensures Print(Leaf(text), depth) == Indent(depth) + text + "\n"
  {
  }

  /** A printed node starts with its indented line and ends its last line;
      a block ends with a closing brace at the indentation of the line that
      opened it. */
  lemma PrintShape(n: Node, depth: nat)
    ensures StartsWith(Print(n, depth), Indent(depth) + n.text)
    ensures !n.hasBlock ==> EndsWith(Print(n, depth), "\n")
    ensures n.hasBlock ==> EndsWith(Print(n, depth), Indent(depth) + "}\n")
  {
    var line := Indent(depth) + n.text;
    if n.hasBlock {
      var open := " {\n" + PrintAll(n.children, depth + 1);
      PrintBlock(n.text, n.children, depth);
      assert Print(n, depth) == line + (open + Indent(depth) + "}\n");
      StartsWithAppend(line, open + Indent(depth) + "}\n");
      assert Print(n, depth) == (line + open) + (Indent(depth) + "}\n");
      EndsWithAppend(line + open, Indent(depth) + "}\n");
    } else {
      PrintLeaf(n.text, depth);
      StartsWithAppend(line, "\n");
      EndsWithAppend(line, "\n");
    }
  }


  // ---------------------------------------------------------------------
  // The node tree of a spec
  // ---------------------------------------------------------------------

  /** One child per value, each a quoted string on its own line. */
  function ValueNodes(vs: seq<string>): (r: seq<Node>)
    ensures |r| == |vs|
  {
    if vs == [] then [] else ValueNodes(vs[..|vs| - 1]) + [Leaf(QuoteAlways(vs[|vs| - 1]))]
  }

  /** `-s --long`, either part left out when empty. */
  function FlagName(f: SpecFlag): string {
    Join((if f.short != "" then ["-" + f.short] else []) + (if f.long != "" then ["--" + f.long] else []), " ")
  }

  /** The line of a flag: its quoted name, then the properties in their
      fixed order, each only when set. */
  function FlagLine(f: SpecFlag): string {
    var b := "flag " + KdlQuote(FlagName(f));
    var b := if f.help != "" then b + " help=" + KdlQuote(f.help) else b;
    var b := if f.required then b + " required=#true" else b;
    var b := if f.variadic then b + " var=#true" else b;
    var b := if f.hide then b + " hide=#true" else b;
    var b := if f.global then b + " global=#true" else b;
    var b := if f.count then b + " count=#true" else b;
    var b := if f.deprecated != "" then b + " deprecated=" + KdlQuote(f.deprecated) else b;
    if |f.default| == 1 then b + " default=" + KdlQuote(f.default[0]) else b
  }

  function HasChoices(a: SpecArg): bool {
    a.choices.Some? && |a.choices.value.values| > 0
  }

  /** The value node inside a flag: `arg <NAME>`, with a choices block only
      when there is at least one choice. */
  function FlagArgNode(a: SpecArg): Node {
    var line := "arg <" + a.name + ">";
    var line := if a.help != "" then line + " help=" + KdlQuote(a.help) else line;
    if HasChoices(a)
    then Block(line, [Block("choices", ValueNodes(a.choices.value.values))])
    else Leaf(line)
  }

  /** Long help, then several defaults, then the value. */
  function FlagChildren(f: SpecFlag): seq<Node> {
    var ch := if f.helpLong != "" then [Leaf("long_help " + QuoteAlways(f.helpLong))] else [];
    var ch := if |f.default| > 1 then ch + [Block("default", ValueNodes(f.default))] else ch;
    if f.arg.Some? then ch + [FlagArgNode(f.arg.value)] else ch
  }

  /** A flag opens a block exactly when it has long help, a value or several
      defaults. */
  function FlagNode(f: SpecFlag): Node {
    var hasChildren := f.helpLong != "" || f.arg.Some? || |f.default| > 1;
    Node(FlagLine(f), hasChildren, if hasChildren then FlagChildren(f) else [])
  }

  /** `<name>` or `[name]`, with a trailing ellipsis when variadic. */
  function ArgUsage(a: SpecArg): string {
    (if a.required then "<" + a.name + ">" else "[" + a.name + "]") + (if a.variadic then "\U{2026}" else "")
  }

  /** The usage is written bare when it starts with `<` and quoted when it
      starts with `[`, which KDL would read as a type annotation. */
  function ArgTitle(a: SpecArg): string {
    var usage := ArgUsage(a);
    if StartsWith(usage, "[") then QuoteAlways(usage) else usage
  }

  function ArgLine(a: SpecArg): string {
    var b := "arg " + ArgTitle(a);
    var b := if a.help != "" then b + " help=" + KdlQuote(a.help) else b;
    var b := if !a.required then b + " required=#false" else b;
    var b := if a.variadic then b + " var=#true" else b;
    var b := if a.hide then b + " hide=#true" else b;
    if |a.default| == 1 then b + " default=" + KdlQuote(a.default[0]) else b
  }

  /** Several defaults, then the choices when there is at least one. */
  function ArgChildren(a: SpecArg): seq<Node> {
    var ch := if |a.default| > 1 then [Block("default", ValueNodes(a.default))] else [];
    if HasChoices(a) then ch + [Block("choices", ValueNodes(a.choices.value.values))] else ch
  }

  /** An argument opens a block whenever it has choices, even an empty set
      of them, or several defaults. */
  function ArgNode(a: SpecArg): Node {
    var hasChildren := a.choices.Some? || |a.default| > 1;
    Node(ArgLine(a), hasChildren, if hasChildren then ArgChildren(a) else [])
  }

  function FlagNodes(fs: seq<SpecFlag>): (r: seq<Node>)
    ensures |r| == |fs|
  {
    if fs == [] then [] else FlagNodes(fs[..|fs| - 1]) + [FlagNode(fs[|fs| - 1])]
  }

  function ArgNodes(as_: seq<SpecArg>): (r: seq<Node>)
    ensures |r| == |as_|
  {
    if as_ == [] then [] else ArgNodes(as_[..|as_| - 1]) + [ArgNode(as_[|as_| - 1])]
  }

  function CmdLine(c: SpecCommand): string {
    var b := "cmd " + KdlQuote(c.name);
    var b := if c.hide then b + " hide=#true" else b;
    var b := if c.subcommandRequired then b + " subcommand_required=#true" else b;
    var b := if c.help != "" then b + " help=" + KdlQuote(c.help) else b;
    if c.deprecated != "" then b + " deprecated=" + KdlQuote(c.deprecated) else b
  }

  /** `alias a1 a2 ...`, each alias quoted when needed. */
  function AliasLine(aliases: seq<string>): string {
    if aliases == [] then "alias" else AliasLine(aliases[..|aliases| - 1]) + " " + KdlQuote(aliases[|aliases| - 1])
  }

  /** Aliases, long help, flags, arguments, then subcommands. */
  function CmdChildren(c: SpecCommand): seq<Node>
    decreases c, 2
  {
    var ch := if |c.aliases| > 0 then [Leaf(AliasLine(c.aliases))] else [];
    var ch := if c.helpLong != "" then ch + [Leaf("long_help " + QuoteAlways(c.helpLong))] else ch;
    ch + FlagNodes(c.flags) + ArgNodes(c.args) + CmdNodes(c.cmds)
  }

  /** A command opens a block exactly when it has long help, aliases,
      flags, arguments or subcommands. */
  function CmdNode(c: SpecCommand): Node
    decreases c, 3
  {
    var hasChildren := c.helpLong != "" || |c.aliases| > 0 || |c.flags| > 0 || |c.args| > 0 || |c.cmds| > 0;
    Node(CmdLine(c), hasChildren, if hasChildren then CmdChildren(c) else [])
  }

  function CmdNodes(cs: seq<SpecCommand>): (r: seq<Node>)
    ensures |r| == |cs|
    decreases cs, 0
  {
    if cs == [] then [] else CmdNodes(cs[..|cs| - 1]) + [CmdNode(cs[|cs| - 1])]
  }

  /** A metadata line `key value`, present only when the value is set. */
  function MetaNode(key: string, value: string, always: bool): seq<Node> {
    if value == "" then [] else [Leaf(key + " " + if always then QuoteAlways(value) else KdlQuote(value))]
  }

  /** The metadata lines of a document in their fixed order; the long
      description is always quoted. */
  function MetaNodes(s: Spec): (r: seq<Node>)
    ensures |r| <= 6
    ensures s.name != "" ==> |r| > 0 && r[0] == Leaf("name " + KdlQuote(s.name))
  {
    var rest := MetaNode("bin", s.bin, false) + MetaNode("version", s.version, false)
      + MetaNode("about", s.about, false) + MetaNode("long_about", s.long, true) + MetaNode("usage", s.usage, false);
    assert |rest| <= 5;
    MetaNode("name", s.name, false) + rest
  }

  /** The top-level nodes of a document: the metadata, then the root's
      flags, arguments and commands. */
  function SpecNodes(s: Spec): (r: seq<Node>)
    ensures |s.flags| + |s.args| + |s.cmds| <= |r| <= 6 + |s.flags| + |s.args| + |s.cmds|
    ensures s.name != "" ==> |r| > 0 && r[0] == Leaf("name " + KdlQuote(s.name))
  {
    var meta := MetaNodes(s);
    assert s.name != "" ==> (meta + FlagNodes(s.flags) + ArgNodes(s.args) + CmdNodes(s.cmds))[0] == meta[0];
    meta + FlagNodes(s.flags) + ArgNodes(s.args) + CmdNodes(s.cmds)
  }

  /** How a flag node prints: a line alone, or a line opening a block. */
  lemma PrintFlagNode(f: SpecFlag, depth: nat)
    ensures Print(FlagNode(f), depth)
      == if f.helpLong != "" || f.arg.Some? || |f.default| > 1
         then Indent(depth) + FlagLine(f) + (" {\n" + PrintAll(FlagChildren(f), depth + 1) + Indent(depth) + "}\n")
         else Indent(depth) + FlagLine(f) + "\n"
  {
  }

  lemma PrintArgNode(a: SpecArg, depth: nat)
    ensures Print(ArgNode(a), depth)
      == if a.choices.Some? || |a.default| > 1
         then Indent(depth) + ArgLine(a) + (" {\n" + PrintAll(ArgChildren(a), depth + 1) + Indent(depth) + "}\n")
         else Indent(depth) + ArgLine(a) + "\n"
  {
  }

  lemma PrintCmdNode(c: SpecCommand, depth: nat)
    ensures Print(CmdNode(c), depth)
      == if c.helpLong != "" || |c.aliases| > 0 || |c.flags| > 0 || |c.args| > 0 || |c.cmds| > 0
         then Indent(depth) + CmdLine(c) + (" {\n" + PrintAll(CmdChildren(c), depth + 1) + Indent(depth) + "}\n")
         else Indent(depth) + CmdLine(c) + "\n"
  {
  }

  // ---------------------------------------------------------------------
  // What the node tree says
  // ---------------------------------------------------------------------

  /** An argument's usage reads back from what is written for it, whether
      bare or quoted, and it is quoted exactly when the argument is optional. */
  lemma ArgTitleReadsBack(a: SpecArg)
    ensures ReadValue(ArgTitle(a)) == ArgUsage(a)
    ensures ArgTitle(a) != ArgUsage(a) <==> !a.required
  {
    var usage := ArgUsage(a);
    assert usage[..1] == [usage[0]];
    if StartsWith(usage, "[") {
      QuoteAlwaysRoundTrip(usage);
      EscapeLength(usage);
    } else {
      assert usage[0] == '<';
    }
  }

  /** The name of a flag spelled out: `-s --long`, `-s` or `--long`. */
  lemma FlagNameSpelled(f: SpecFlag)
    ensures FlagName(f) ==
      if f.short != "" && f.long != "" then "-" + f.short + " --" + f.long
      else if f.short != "" then "-" + f.short
      else if f.long != "" then "--" + f.long
      else ""
  {
    var parts := (if f.short != "" then ["-" + f.short] else []) + (if f.long != "" then ["--" + f.long] else []);
    if f.short != "" && f.long != "" {
      assert parts == ["-" + f.short, "--" + f.long];
      assert parts[1..] == ["--" + f.long];
      assert FlagName(f) == Join(parts, " ");
      assert Join(parts[1..], " ") == "--" + f.long;
      assert FlagName(f) == "-" + f.short + " " + ("--" + f.long);
      ConcatAssoc("-" + f.short + " ", "--", f.long);
      ConcatAssoc("-" + f.short, " ", "--");
    } else if f.short != "" {
      assert parts == ["-" + f.short];
    } else if f.long != "" {
      assert parts == ["--" + f.long];
    } else {
      assert parts == [];
    }
  }

  /** A flag's `-s --long` name reads back from what is written for it. */
  lemma FlagNameReadsBack(f: SpecFlag)
    ensures ReadValue(KdlQuote(FlagName(f))) == FlagName(f)
  {
    KdlQuoteRoundTrip(FlagName(f));
  }

  /** Every value of a multi-valued default or of a choices block sits on
      its own line and reads back as itself, in order. */
  lemma {:induction false} ValueNodesReadBack(vs: seq<string>)
    ensures forall i :: 0 <= i < |vs| ==>
      && ValueNodes(vs)[i] == Leaf(QuoteAlways(vs[i]))
      && ReadValue(QuoteAlways(vs[i])) == vs[i]
  {
    if vs != [] {
      ValueNodesReadBack(vs[..|vs| - 1]);
      QuoteAlwaysRoundTrip(vs[|vs| - 1]);
    }
  }

  /** A command's block lists its subcommands last, one node each, in order. */
  lemma CmdChildrenEndWithSubcommands(c: SpecCommand)
    requires |c.cmds| > 0
    ensures CmdNode(c).hasBlock
    ensures var ch := CmdNode(c).children;
      |ch| >= |c.cmds| && ch[|ch| - |c.cmds|..] == CmdNodes(c.cmds)
  {
  }

  // ---------------------------------------------------------------------
  // Rendering, piece by piece
  // ---------------------------------------------------------------------

  /** The values of a multi-valued default or of a choices block, one
      quoted value per line. */
  method RenderValues(vs: seq<string>, depth: nat) returns (s: string)
    ensures s == PrintAll(ValueNodes(vs), depth)
  {
    var indent := Indent(depth);
    s := "";
    for i := 0 to |vs|
      invariant s == PrintAll(ValueNodes(vs[..i]), depth)
    {
      var q := KdlQuoteAlways(vs[i]);
      assert vs[..i + 1][..i] == vs[..i];
      PrintAllSnoc(ValueNodes(vs[..i]), Leaf(q), depth);
      s := s + indent + q + "\n";
    }
    assert vs[..|vs|] == vs;
  }

  /** A `default` or `choices` block: the key, then one quoted value per
      line one level deeper, then the closing brace. */
  method RenderValuesBlock(key: string, vs: seq<string>, depth: nat) returns (s: string)
    ensures s == Print(Block(key, ValueNodes(vs)), depth)
  {
    var indent := Indent(depth);
    var values := RenderValues(vs, depth + 1);
    PrintBlock(key, ValueNodes(vs), depth);
    s := indent + key + (" {\n" + values + indent + "}\n");
  }

  /** The `-s --long` name of a flag, from its non-empty parts. */
  method FlagNameParts(f: SpecFlag) returns (name: string)
    ensures name == FlagName(f)
  {
    var parts: seq<string> := [];
    if f.short != "" {
      parts := parts + ["-" + f.short];
    }
    if f.long != "" {
      parts := parts + ["--" + f.long];
    }
    name := Join(parts, " ");
  }

  /** The first line of `renderFlag` after the indentation: the quoted
      name, then each property that is set, in a fixed order. */
  method RenderFlagLine(flag: SpecFlag) returns (line: string)
    ensures line == FlagLine(flag)
  {
    var name := FlagNameParts(flag);
    var q := KdlQuoteMethod(name);
    line := "flag " + q;
    if flag.help != "" {
      q := KdlQuoteMethod(flag.help);
      line := line + " help=" + q;
    }
    if flag.required {
      line := line + " required=#true";
    }
    if flag.variadic {
      line := line + " var=#true";
    }
    if flag.hide {
      line := line + " hide=#true";
    }
    if flag.global {
      line := line + " global=#true";
    }
    if flag.count {
      line := line + " count=#true";
    }
    if flag.deprecated != "" {
      q := KdlQuoteMethod(flag.deprecated);
      line := line + " deprecated=" + q;
    }
    if |flag.default| == 1 {
      q := KdlQuoteMethod(flag.default[0]);
      line := line + " default=" + q;
    }
  }

  /** The value node that `renderFlag` writes inside a flag's block. */
  method RenderFlagArg(arg: SpecArg, depth: nat) returns (s: string)
    ensures s == Print(FlagArgNode(arg), depth)
  {
    var indent := Indent(depth);
    var line := "arg <" + arg.name + ">";
    if arg.help != "" {
      var q := KdlQuoteMethod(arg.help);
      line := line + " help=" + q;
    }
    if arg.choices.Some? && |arg.choices.value.values| > 0 {
      ghost var choicesNode := Block("choices", ValueNodes(arg.choices.value.values));
      var choices := RenderValuesBlock("choices", arg.choices.value.values, depth + 1);
      PrintAllOne(choicesNode, depth + 1);
      assert FlagArgNode(arg) == Block(line, [choicesNode]);
      PrintBlock(line, [choicesNode], depth);
      s := indent + line + (" {\n" + choices + indent + "}\n");
    } else {
      assert FlagArgNode(arg) == Leaf(line);
      PrintLeaf(line, depth);
      s := indent + line + "\n";
    }
  }

  /** The children block of `renderFlag`: long help, several defaults,
      then the value. */
  method RenderFlagChildren(flag: SpecFlag, depth: nat) returns (body: string)
    ensures body == PrintAll(FlagChildren(flag), depth)
  {
    var indent := Indent(depth);
    body := "";
    ghost var ch: seq<Node> := [];
    if flag.helpLong != "" {
      var q := KdlQuoteAlways(flag.helpLong);
      var chunk := indent + ("long_help " + q) + "\n";
      PrintLeaf("long_help " + q, depth);
      PrintAllStep(body, ch, chunk, Leaf("long_help " + q), depth);
      body := body + chunk;
      ch := ch + [Leaf("long_help " + q)];
    }
    if |flag.default| > 1 {
      var chunk := RenderValuesBlock("default", flag.default, depth);
      PrintAllStep(body, ch, chunk, Block("default", ValueNodes(flag.default)), depth);
      body := body + chunk;
      ch := ch + [Block("default", ValueNodes(flag.default))];
    }
    if flag.arg.Some? {
      var chunk := RenderFlagArg(flag.arg.value, depth);
      PrintAllStep(body, ch, chunk, FlagArgNode(flag.arg.value), depth);
      body := body + chunk;
      ch := ch + [FlagArgNode(flag.arg.value)];
    }
    assert ch == FlagChildren(flag);
  }

  /** `renderFlag`. The line is written first; a block follows exactly when
      the flag has long help, several defaults or a value. */
  method RenderFlag(flag: SpecFlag, depth: nat) returns (s: string)
    ensures s == Print(FlagNode(flag), depth)
  {
    var indent := Indent(depth);
    var line := RenderFlagLine(flag);
    PrintFlagNode(flag, depth);
    if flag.helpLong != "" || flag.arg.Some? || |flag.default| > 1 {
      var body := RenderFlagChildren(flag, depth + 1);
      s := indent + line + (" {\n" + body + indent + "}\n");
    } else {
      s := indent + line + "\n";
    }
  }


  /** The first line of `renderArg` after the indentation: the usage, bare
      or quoted, then each property that is set, in a fixed order. */
  method RenderArgLine(arg: SpecArg) returns (line: string)
    ensures line == ArgLine(arg)
  {
    var usage;
    if arg.required {
      usage := "<" + arg.name + ">";
    } else {
      usage := "[" + arg.name + "]";
    }
    if arg.variadic {
      usage := usage + "\U{2026}";
    }
    assert usage == ArgUsage(arg);
    if StartsWith(usage, "[") {
      var q := KdlQuoteAlways(usage);
      line := "arg " + q;
    } else {
      line := "arg " + usage;
    }
    if arg.help != "" {
      var q := KdlQuoteMethod(arg.help);
      line := line + " help=" + q;
    }
    if !arg.required {
      line := line + " required=#false";
    }
    if arg.variadic {
      line := line + " var=#true";
    }
    if arg.hide {
      line := line + " hide=#true";
    }
    if |arg.default| == 1 {
      var q := KdlQuoteMethod(arg.default[0]);
      line := line + " default=" + q;
    }
  }

  /** The children block of `renderArg`: several defaults, then the
      choices. */
  method RenderArgChildren(arg: SpecArg, depth: nat) returns (body: string)
    ensures body == PrintAll(ArgChildren(arg), depth)
  {
    var indent := Indent(depth);
    body := "";
    ghost var ch: seq<Node> := [];
    if |arg.default| > 1 {
      var chunk := RenderValuesBlock("default", arg.default, depth);
      PrintAllStep(body, ch, chunk, Block("default", ValueNodes(arg.default)), depth);
      body := body + chunk;
      ch := ch + [Block("default", ValueNodes(arg.default))];
    }
    if arg.choices.Some? && |arg.choices.value.values| > 0 {
      var chunk := RenderValuesBlock("choices", arg.choices.value.values, depth);
      PrintAllStep(body, ch, chunk, Block("choices", ValueNodes(arg.choices.value.values)), depth);
      body := body + chunk;
      ch := ch + [Block("choices", ValueNodes(arg.choices.value.values))];
    }
    assert ch == ArgChildren(arg);
  }

  /** `renderArg`. A block follows the line whenever the argument has
      choices, even none, or several defaults. */
  method RenderArg(arg: SpecArg, depth: nat) returns (s: string)
    ensures s == Print(ArgNode(arg), depth)
  {
    var indent := Indent(depth);
    var line := RenderArgLine(arg);
    PrintArgNode(arg, depth);
    if arg.choices.Some? || |arg.default| > 1 {
      var body := RenderArgChildren(arg, depth + 1);
      s := indent + line + (" {\n" + body + indent + "}\n");
    } else {
      s := indent + line + "\n";
    }
  }


  /** The flags of one command, in order. */
  method RenderFlags(flags: seq<SpecFlag>, depth: nat) returns (s: string)
    ensures s == PrintAll(FlagNodes(flags), depth)
  {
    s := "";
    for i := 0 to |flags|
      invariant s == PrintAll(FlagNodes(flags[..i]), depth)
    {
      var chunk := RenderFlag(flags[i], depth);
      assert flags[..i + 1][..i] == flags[..i];
      PrintAllStep(s, FlagNodes(flags[..i]), chunk, FlagNode(flags[i]), depth);
      s := s + chunk;
    }
    assert flags[..|flags|] == flags;
  }

  /** The arguments of one command, in order. */
  method RenderArgs(args: seq<SpecArg>, depth: nat) returns (s: string)
    ensures s == PrintAll(ArgNodes(args), depth)
  {
    s := "";
    for i := 0 to |args|
      invariant s == PrintAll(ArgNodes(args[..i]), depth)
    {
      var chunk := RenderArg(args[i], depth);
      assert args[..i + 1][..i] == args[..i];
      PrintAllStep(s, ArgNodes(args[..i]), chunk, ArgNode(args[i]), depth);
      s := s + chunk;
    }
    assert args[..|args|] == args;
  }

  /** The subcommands of one command, in order. */
  method RenderCommands(cmds: seq<SpecCommand>, depth: nat) returns (s: string)
    ensures s == PrintAll(CmdNodes(cmds), depth)
    decreases cmds, 0
  {
    s := "";
    for i := 0 to |cmds|
      invariant s == PrintAll(CmdNodes(cmds[..i]), depth)
    {
      var chunk := RenderCommand(cmds[i], depth);
      assert cmds[..i + 1][..i] == cmds[..i];
      PrintAllStep(s, CmdNodes(cmds[..i]), chunk, CmdNode(cmds[i]), depth);
      s := s + chunk;
    }
    assert cmds[..|cmds|] == cmds;
  }

  /** The first line of `renderCommand` after the indentation: the quoted
      name, then each property that is set, in a fixed order. */
  method RenderCommandLine(cmd: SpecCommand) returns (line: string)
    ensures line == CmdLine(cmd)
  {
    var q := KdlQuoteMethod(cmd.name);
    line := "cmd " + q;
    if cmd.hide {
      line := line + " hide=#true";
    }
    if cmd.subcommandRequired {
      line := line + " subcommand_required=#true";
    }
    if cmd.help != "" {
      q := KdlQuoteMethod(cmd.help);
      line := line + " help=" + q;
    }
    if cmd.deprecated != "" {
      q := KdlQuoteMethod(cmd.deprecated);
      line := line + " deprecated=" + q;
    }
  }

  /** The `alias` line of a command, each alias quoted when needed. */
  method RenderAliases(aliases: seq<string>) returns (line: string)
    ensures line == AliasLine(aliases)
  {
    line := "alias";
    for i := 0 to |aliases|
      invariant line == AliasLine(aliases[..i])
    {
      var q := KdlQuoteMethod(aliases[i]);
      assert aliases[..i + 1][..i] == aliases[..i];
      line := line + " " + q;
    }
    assert aliases[..|aliases|] == aliases;
  }

  /** The children block of `renderCommand`: aliases, long help, flags,
      arguments, then subcommands. */
  method RenderCommandChildren(cmd: SpecCommand, depth: nat) returns (body: string)
    ensures body == PrintAll(CmdChildren(cmd), depth)
    decreases cmd, 0
  {
    var indent := Indent(depth);
    body := "";
    ghost var ch: seq<Node> := [];
    if |cmd.aliases| > 0 {
      var line := RenderAliases(cmd.aliases);
      var chunk := indent + line + "\n";
      PrintLeaf(line, depth);
      PrintAllStep(body, ch, chunk, Leaf(line), depth);
      body := body + chunk;
      ch := ch + [Leaf(line)];
    }
    if cmd.helpLong != "" {
      var q := KdlQuoteAlways(cmd.helpLong);
      var chunk := indent + ("long_help " + q) + "\n";
      PrintLeaf("long_help " + q, depth);
      PrintAllStep(body, ch, chunk, Leaf("long_help " + q), depth);
      body := body + chunk;
      ch := ch + [Leaf("long_help " + q)];
    }
    var flags := RenderFlags(cmd.flags, depth);
    PrintAllAppend(ch, FlagNodes(cmd.flags), depth);
    body := body + flags;
    ch := ch + FlagNodes(cmd.flags);
    var args := RenderArgs(cmd.args, depth);
    PrintAllAppend(ch, ArgNodes(cmd.args), depth);
    body := body + args;
    ch := ch + ArgNodes(cmd.args);
    var cmds := RenderCommands(cmd.cmds, depth);
    PrintAllAppend(ch, CmdNodes(cmd.cmds), depth);
    body := body + cmds;
    ch := ch + CmdNodes(cmd.cmds);
    assert ch == CmdChildren(cmd);
  }

  /** `renderCommand`. A block follows the line exactly when the command
      has long help, aliases, flags, arguments or subcommands. */
  method RenderCommand(cmd: SpecCommand, depth: nat) returns (s: string)
    ensures s == Print(CmdNode(cmd), depth)
    decreases cmd, 1
  {
    var indent := Indent(depth);
    var line := RenderCommandLine(cmd);
    PrintCmdNode(cmd, depth);
    if cmd.helpLong != "" || |cmd.aliases| > 0 || |cmd.flags| > 0 || |cmd.args| > 0 || |cmd.cmds| > 0 {
      var body := RenderCommandChildren(cmd, depth + 1);
      s := indent + line + (" {\n" + body + indent + "}\n");
    } else {
      s := indent + line + "\n";
    }
  }


  /** One metadata line of `renderKDL`, written only when the value is
      set. */
  method RenderMetaLine(key: string, value: string, always: bool) returns (s: string)
    ensures s == PrintAll(MetaNode(key, value, always), 0)
  {
    if value == "" {
      return "";
    }
    var q;
    if always {
      q := KdlQuoteAlways(value);
    } else {
      q := KdlQuoteMethod(value);
    }
    var indent := Indent(0);
    PrintLeaf(key + " " + q, 0);
    PrintAllOne(Leaf(key + " " + q), 0);
    s := indent + (key + " " + q) + "\n";
  }

  /** The metadata lines of `renderKDL`. */
  method RenderMeta(spec: Spec) returns (s: string)
    ensures s == PrintAll(MetaNodes(spec), 0)
  {
    var name := RenderMetaLine("name", spec.name, false);
    var rest := RenderMetaLine("bin", spec.bin, false);
    ghost var ns := MetaNode("bin", spec.bin, false);
    var version := RenderMetaLine("version", spec.version, false);
    PrintAllAppend(ns, MetaNode("version", spec.version, false), 0);
    rest := rest + version;
    ns := ns + MetaNode("version", spec.version, false);
    var about := RenderMetaLine("about", spec.about, false);
    PrintAllAppend(ns, MetaNode("about", spec.about, false), 0);
    rest := rest + about;
    ns := ns + MetaNode("about", spec.about, false);
    var long := RenderMetaLine("long_about", spec.long, true);
    PrintAllAppend(ns, MetaNode("long_about", spec.long, true), 0);
    rest := rest + long;
    ns := ns + MetaNode("long_about", spec.long, true);
    var usage := RenderMetaLine("usage", spec.usage, false);
    PrintAllAppend(ns, MetaNode("usage", spec.usage, false), 0);
    rest := rest + usage;
    ns := ns + MetaNode("usage", spec.usage, false);
    PrintAllAppend(MetaNode("name", spec.name, false), ns, 0);
    s := name + rest;
  }


  /** `renderKDL`: the metadata, then the root's flags, arguments and
      subcommands, all at the top level. */
  method RenderKdl(spec: Spec) returns (s: string)
    ensures s == PrintAll(SpecNodes(spec), 0)
  {
    s := RenderMeta(spec);
    var flags := RenderFlags(spec.flags, 0);
    PrintAllAppend(MetaNodes(spec), FlagNodes(spec.flags), 0);
    s := s + flags;
    var args := RenderArgs(spec.args, 0);
    PrintAllAppend(MetaNodes(spec) + FlagNodes(spec.flags), ArgNodes(spec.args), 0);
    s := s + args;
    var cmds := RenderCommands(spec.cmds, 0);
    PrintAllAppend(MetaNodes(spec) + FlagNodes(spec.flags) + ArgNodes(spec.args), CmdNodes(spec.cmds), 0);
    s := s + cmds;
  }
}
