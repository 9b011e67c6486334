/** Splicing generated documentation into a markdown file
    (cli/src/cli/generate/markdown.rs): the file's lines are classified as
    usage directives, end markers and plain text, then rendered again with
    the generated text between each directive and its end marker. The
    directives' KDL text, the spec files and the templates are parameters. */
module MarkdownGen {
  import opened Wrappers
  import opened Strings
  import opened UsageSpec

  /** A failure: an error returned to the caller, or a panic. */
  datatype MdError = Error(message: string) | Panic(message: string)

  datatype Directive =
    | Load(token: string, file: string)
    | Title(token: string)
    | UsageOverview(token: string)
    | GlobalArgs(token: string)
    | GlobalFlags(token: string)
    | Commands(token: string, inlineDepth: nat)
    | PrintConfig(token: string)
    | EndToken
    | Plain(token: string)

  /** A property value of a KDL node, as far as directives read them. */
  datatype KdlValue = KString(s: string) | KInt(i: int) | KOther

  datatype KdlNode = KdlNode(name: string, props: seq<Entry<KdlValue>>)

  /** The KDL reader for a directive's text. */
  type KdlParser = string -> Result<seq<KdlNode>, string>

  const EndMarker: string := "<!-- [USAGE] -->"
  const Opener: string := "<!-- [USAGE] "
  const Closer: string := " -->"

  const Usize: int := 0x1_0000_0000_0000_0000

  // ---------------------------------------------------------------------
  // The subcommands listed by the commands directive
  // ---------------------------------------------------------------------

  /** `gather_subcommands` on one command: nothing for a hidden command and
      everything below it; a named command, then what is gathered below
      it; an unnamed one contributes only what is below it. */
  function Gathered(cmd: Command): seq<Command>
    decreases cmd, 1
  {
    if cmd.hide then []
    else (if cmd.name != "" then [cmd] else []) + GatheredAll(cmd.subcommands)
  }

  /** `gather_subcommands` on the values of a subcommand map, in order. */
  function GatheredAll(subs: seq<Entry<Command>>): seq<Command>
    decreases subs, 0
  {
    if subs == [] then [] else GatheredAll(subs[..|subs| - 1]) + Gathered(subs[|subs| - 1].value)
  }

  method GatherOne(cmd: Command) returns (r: seq<Command>)
    ensures r == Gathered(cmd)
    decreases cmd, 1
  {
    if cmd.hide {
      return [];
    }
    r := [];
    if cmd.name != "" {
      r := r + [cmd];
    }
    var more := GatherSubcommands(cmd.subcommands);
    r := r + more;
  }

  /** `gather_subcommands`: the loop over the commands, each pushed before
      the recursive gathering below it. */
  method GatherSubcommands(subs: seq<Entry<Command>>) returns (r: seq<Command>)
    ensures r == GatheredAll(subs)
    decreases subs, 0
  {
    r := [];
    for i := 0 to |subs|
      invariant r == GatheredAll(subs[..i])
    {
      assert subs[..i + 1][..i] == subs[..i];
      var more := GatherOne(subs[i].value);
      r := r + more;
    }
    assert subs[..|subs|] == subs;
  }

  /** Nothing gathered is hidden or unnamed. */
  lemma {:induction false} GatheredShown(cmd: Command)
    ensures forall c :: c in Gathered(cmd) ==> !c.hide && c.name != ""
    decreases cmd, 1
  {
    if !cmd.hide {
      GatheredAllShown(cmd.subcommands);
    }
  }

  lemma {:induction false} GatheredAllShown(subs: seq<Entry<Command>>)
    ensures forall c :: c in GatheredAll(subs) ==> !c.hide && c.name != ""
    decreases subs, 0
  {
    if subs != [] {
      GatheredAllShown(subs[..|subs| - 1]);
      GatheredShown(subs[|subs| - 1].value);
    }
  }

  /** The command at `k` opens a block that is its own gathering:
      everything below it comes right after it. */
  ghost predicate OpensSubtree(r: seq<Command>, k: int)
    requires 0 <= k < |r|
  {
    k + |Gathered(r[k])| <= |r| && r[k..k + |Gathered(r[k])|] == Gathered(r[k])
  }

  lemma OpensLeft(a: seq<Command>, b: seq<Command>, k: int)
    requires 0 <= k < |a| && OpensSubtree(a, k)
    ensures OpensSubtree(a + b, k)
  {
    assert (a + b)[k..k + |Gathered(a[k])|] == a[k..k + |Gathered(a[k])|];
  }

  lemma OpensRight(a: seq<Command>, b: seq<Command>, k: int)
    requires 0 <= k < |b| && OpensSubtree(b, k)
    ensures OpensSubtree(a + b, |a| + k)
  {
    assert (a + b)[|a| + k..|a| + k + |Gathered(b[k])|] == b[k..k + |Gathered(b[k])|];
  }

  /** Pre-order: a shown, named command comes first, and every command
      gathered is followed at once by everything gathered below it. */
  lemma {:induction false} GatheredPreOrder(cmd: Command)
    ensures !cmd.hide && cmd.name != "" ==> Gathered(cmd)[0] == cmd
    ensures forall k :: 0 <= k < |Gathered(cmd)| ==> OpensSubtree(Gathered(cmd), k)
    decreases cmd, 1
  {
    if !cmd.hide {
      var head := if cmd.name != "" then [cmd] else [];
      var below := GatheredAll(cmd.subcommands);
      GatheredAllPreOrder(cmd.subcommands);
      forall k | 0 <= k < |Gathered(cmd)|
        ensures OpensSubtree(Gathered(cmd), k)
      {
        if k < |head| {
          assert Gathered(cmd)[0..|Gathered(cmd)|] == Gathered(cmd);
        } else {
          OpensRight(head, below, k - |head|);
        }
      }
    }
  }

  lemma {:induction false} GatheredAllPreOrder(subs: seq<Entry<Command>>)
    ensures forall k :: 0 <= k < |GatheredAll(subs)| ==> OpensSubtree(GatheredAll(subs), k)
    decreases subs, 0
  {
    if subs != [] {
      var init, last := GatheredAll(subs[..|subs| - 1]), Gathered(subs[|subs| - 1].value);
      GatheredAllPreOrder(subs[..|subs| - 1]);
      GatheredPreOrder(subs[|subs| - 1].value);
      forall k | 0 <= k < |GatheredAll(subs)|
        ensures OpensSubtree(GatheredAll(subs), k)
      {
        if k < |init| {
          OpensLeft(init, last, k);
        } else {
          OpensRight(init, last, k - |init|);
        }
      }
    }
  }

  // ---------------------------------------------------------------------
  // Recognising directives
  // ---------------------------------------------------------------------

  /** The text before and after the last occurrence of a pattern. */
  function SplitLast(s: string, pat: string): (r: Option<(string, string)>)
    requires pat != []
    ensures r.Some? ==> r.value.0 + pat + r.value.1 == s
    ensures r.Some? ==> forall j :: |r.value.0| < j ==> !OccursAt(s, pat, j)
    ensures r.None? ==> forall j :: !OccursAt(s, pat, j)
    decreases |s|
  {
    if |s| < |pat| then None
    else if s[|s| - |pat|..] == pat then
      assert s == s[..|s| - |pat|] + pat + "";
      Some((s[..|s| - |pat|], ""))
    else
      var init := s[..|s| - 1];
      OccursInInit(s, pat);
      match SplitLast(init, pat)
      case None => None
      case Some((a, b)) =>
        assert s == a + pat + (b + [s[|s| - 1]]);
        Some((a, b + [s[|s| - 1]]))
  }

  /** An occurrence that ends before the last character is one in the
      text without it. */
  lemma OccursInInit(s: string, pat: string)
    requires s != []
    ensures forall j :: OccursAt(s, pat, j) && j + |pat| < |s| ==> OccursAt(s[..|s| - 1], pat, j)
  {
    forall j | OccursAt(s, pat, j) && j + |pat| < |s|
      ensures OccursAt(s[..|s| - 1], pat, j)
    {
      assert s[..|s| - 1][j..j + |pat|] == s[j..j + |pat|];
    }
  }

  /** The text the directive pattern `<!-- [USAGE] (.*) -->` captures in a
      line: after the first opener, up to the last closer behind it (the
      capture is greedy). */
  function Captured(line: string): Option<string> {
    match SplitOnce(line, Opener)
    case None => None
    case Some((_, after)) =>
      match SplitLast(after, Closer)
      case None => None
      case Some((inner, _)) => Some(inner)
  }

  /** A capture sits between an opener and a closer in the line. */
  lemma CapturedSpec(line: string)
    ensures Captured(line).Some? ==> exists a, b :: line == a + Opener + Captured(line).value + Closer + b
    ensures Captured(line).Some? ==> Contains(line, Opener)
  {
    if Captured(line).Some? {
      var (before, after) := SplitOnce(line, Opener).value;
      var (inner, rest) := SplitLast(after, Closer).value;
      assert line == before + Opener + inner + Closer + rest;
      assert line[|before|..|before| + |Opener|] == Opener;
      assert OccursAt(line, Opener, |before|);
    }
  }

  /** The value of a property (`node.get(key)`). */
  function Prop(node: KdlNode, key: string): Option<KdlValue> {
    Get(node.props, key)
  }

  /** `get_string`: absent, a string, or an error. */
  function GetString(node: KdlNode, key: string): Result<Option<string>, MdError> {
    match Prop(node, key)
    case None => Ok(None)
    case Some(KString(s)) => Ok(Some(s))
    case Some(_) => Err(Error(key + " must be a string"))
  }

  /** `get_i64`: absent, an integer, or an error. */
  function GetInt(node: KdlNode, key: string): Result<Option<int>, MdError> {
    match Prop(node, key)
    case None => Ok(None)
    case Some(KInt(i)) => Ok(Some(i))
    case Some(_) => Err(Error(key + " must be an integer"))
  }

  /** Rust's `as usize` on an `i64`: two's complement wrap-around. */
  function AsUsize(i: int): (r: nat)
    ensures r < Usize
    ensures 0 <= i < Usize ==> r == i
  {
    i % Usize
  }

  /** The directive a single node stands for. */
  function NodeDirective(line: string, node: KdlNode): Result<Directive, MdError> {
    if node.name == "load" then
      match GetString(node, "file")
      case Err(e) => Err(e)
      case Ok(None) => Err(Error("load directive must have a file"))
      case Ok(Some(f)) => Ok(Load(line, f))
    else if node.name == "title" then Ok(Title(line))
    else if node.name == "usage_overview" then Ok(UsageOverview(line))
    else if node.name == "global_args" then Ok(GlobalArgs(line))
    else if node.name == "global_flags" then Ok(GlobalFlags(line))
    else if node.name == "config" then Ok(PrintConfig(line))
    else if node.name == "commands" then
      match GetInt(node, "inline_depth")
      case Err(e) => Err(e)
      case Ok(depth) => Ok(Commands(line, AsUsize(depth.GetOr(2))))
    else Err(Error("unknown directive type: " + node.name))
  }

  predicate KnownName(name: string) {
    name in ["load", "title", "usage_overview", "global_args", "global_flags", "config", "commands"]
  }

  /** Unknown names are errors; the commands directive lists two levels
      inline unless told otherwise, and a negative depth wraps round to a
      very deep one; every directive keeps its line as its token. */
  lemma NodeDirectiveSpec(line: string, node: KdlNode)
    ensures !KnownName(node.name) ==> NodeDirective(line, node) == Err(Error("unknown directive type: " + node.name))
    ensures node.name == "commands" && Prop(node, "inline_depth").None? ==> NodeDirective(line, node) == Ok(Commands(line, 2))
    ensures node.name == "commands" && Prop(node, "inline_depth") == Some(KInt(-1)) ==> NodeDirective(line, node) == Ok(Commands(line, Usize - 1))
    ensures NodeDirective(line, node).Ok? ==> var d := NodeDirective(line, node).value; !d.EndToken? && !d.Plain? && d.token == line
  {
  }

  /** The bitwise complement of a `usize`. */
  function NotUsize(n: nat): nat
    requires n < Usize
  {
    Usize - 1 - n
  }

  /** The directive's nodes as written: the check `!len == 1` complements
      the length, so it holds only for a length of `usize::MAX - 1`; then
      the first node is unwrapped, which panics on an empty document. */
  function NodesDirectiveAsWritten(line: string, nodes: seq<KdlNode>): Result<Directive, MdError>
    requires |nodes| < Usize
  {
    if NotUsize(|nodes|) == 1 then Err(Error("only one node allowed in usage directive"))
    else if nodes == [] then Err(Panic("called `Option::unwrap()` on a `None` value"))
    else NodeDirective(line, nodes[0])
  }

  /** The evident intent: exactly one node. */
  function NodesDirective(line: string, nodes: seq<KdlNode>): (r: Result<Directive, MdError>)
    ensures r.Ok? ==> |nodes| == 1
    ensures |nodes| == 1 ==> r == NodeDirective(line, nodes[0])
  {
    if |nodes| != 1 then Err(Error("only one node allowed in usage directive"))
    else NodeDirective(line, nodes[0])
  }

  /** As written, a directive with two nodes is accepted and the second is
      ignored, and one with none panics; the intended check refuses both. */
  lemma NodeCountAsWritten(line: string, a: KdlNode, b: KdlNode)
    ensures NodesDirectiveAsWritten(line, [a, b]) == NodeDirective(line, a)
    ensures NodesDirectiveAsWritten(line, []).Err? && NodesDirectiveAsWritten(line, []).error.Panic?
    ensures NodesDirective(line, [a, b]) == Err(Error("only one node allowed in usage directive"))
    ensures NodesDirective(line, []) == Err(Error("only one node allowed in usage directive"))
  {
  }

  /** The guard as written fires for no document shorter than
      `usize::MAX - 1` nodes; the intended one fires for every count but one. */
  lemma NodeCountGuard(nodes: seq<KdlNode>)
    requires |nodes| < Usize - 2
    ensures NotUsize(|nodes|) != 1
    ensures NodesDirective("", nodes).Err? || |nodes| == 1
  {
  }

  /** The classification of one line. */
  function Classify(line: string, kdl: KdlParser): (r: Result<Directive, MdError>)
    ensures r.Err? ==> line != EndMarker && Captured(line).Some?
  {
    if line == EndMarker then Ok(EndToken)
    else match Captured(line)
      case None => Ok(Plain(line))
      case Some(inner) =>
        match kdl(inner)
        case Err(e) => Err(Error(e))
        case Ok(nodes) => NodesDirective(line, nodes)
  }

  /** The end marker alone is an end; a line holding the directive pattern
      is a directive (or an error); any other line is plain text, kept as
      it is. */
  lemma ClassifySpec(line: string, kdl: KdlParser)
    ensures line == EndMarker <==> Classify(line, kdl) == Ok(EndToken)
    ensures Classify(line, kdl).Ok? && Classify(line, kdl).value.Plain? <==> line != EndMarker && Captured(line).None?
    ensures Classify(line, kdl).Ok? && Classify(line, kdl).value.Plain? ==> Classify(line, kdl).value.token == line
    ensures line != EndMarker && Captured(line).Some? && Classify(line, kdl).Ok? ==> Classify(line, kdl).value.token == line
  {
    if line != EndMarker && Captured(line).Some? {
      match kdl(Captured(line).value)
      case Err(_) =>
      case Ok(nodes) =>
        if |nodes| == 1 {
          NodeDirectiveSpec(line, nodes[0]);
        }
    }
  }

  /** `parse_readme_directives` as a function: the first failing line
      fails the whole file. */
  function ParseLines(lines: seq<string>, kdl: KdlParser): (r: Result<seq<Directive>, MdError>)
    ensures r.Ok? ==> |r.value| == |lines|
    ensures r.Ok? ==> forall i :: 0 <= i < |lines| && lines[i] == EndMarker ==> r.value[i] == EndToken
  {
    if lines == [] then Ok([])
    else
      match ParseLines(lines[..|lines| - 1], kdl)
      case Err(e) => Err(e)
      case Ok(ds) =>
        match Classify(lines[|lines| - 1], kdl)
        case Err(e) => Err(e)
        case Ok(d) => Ok(ds + [d])
  }

  /** A failure in a prefix is the failure of the whole. */
  lemma {:induction false} ParseLinesErr(lines: seq<string>, i: nat, kdl: KdlParser)
    requires i <= |lines| && ParseLines(lines[..i], kdl).Err?
    ensures ParseLines(lines, kdl) == ParseLines(lines[..i], kdl)
    decreases |lines| - i
  {
    if i < |lines| {
      assert lines[..i + 1][..i] == lines[..i];
      ParseLinesErr(lines, i + 1, kdl);
    } else {
      assert lines[..i] == lines;
    }
  }

  /** Parsed lines give one directive per line, each the line's own
      classification; a failure is the classification of some line. */
  lemma {:induction false} ParseLinesSpec(lines: seq<string>, kdl: KdlParser)
    ensures ParseLines(lines, kdl).Ok? ==> |ParseLines(lines, kdl).value| == |lines|
    ensures ParseLines(lines, kdl).Ok? ==> forall i :: 0 <= i < |lines| ==> Classify(lines[i], kdl) == Ok(ParseLines(lines, kdl).value[i])
    ensures ParseLines(lines, kdl).Err? ==> exists i :: 0 <= i < |lines| && Classify(lines[i], kdl) == Err(ParseLines(lines, kdl).error)
  {
    if lines != [] {
      var init := lines[..|lines| - 1];
      ParseLinesSpec(init, kdl);
      assert forall i :: 0 <= i < |init| ==> init[i] == lines[i];
    }
  }

  /** `parse_readme_directives`: one directive pushed per line. */
  method ParseReadmeDirectives(full: string, kdl: KdlParser) returns (r: Result<seq<Directive>, MdError>)
    ensures r == ParseLines(Lines(full), kdl)
  {
    var lines := Lines(full);
    var directives := [];
    for i := 0 to |lines|
      invariant ParseLines(lines[..i], kdl) == Ok(directives)
    {
      assert lines[..i + 1][..i] == lines[..i];
      var d := Classify(lines[i], kdl);
      if d.Err? {
        ParseLinesErr(lines, i + 1, kdl);
        return Err(d.error);
      }
      directives := directives + [d.value];
    }
    assert lines[..|lines|] == lines;
    r := Ok(directives);
  }

  // ---------------------------------------------------------------------
  // Rendering
  // ---------------------------------------------------------------------

  /** The template outputs: the title, the usage overview, the command
      index, the text for one command, and the configuration. */
  datatype Templates = Templates(title: string, overview: string, commandsIndex: string, command: Command -> string, config: string)

  /** The lines for one argument or flag: a heading and the long help, a
      bullet with the short help, or a bare bullet. */
  function HelpLines(name: string, help: Option<string>, helpLong: Option<string>): seq<string> {
    if helpLong.Some? then ["### " + name, helpLong.value]
    else if help.Some? then ["- `" + name + "`: " + help.value]
    else ["- `" + name + "`"]
  }

  /** The lines of the shown arguments, each under the literal name `USAGE`. */
  function ArgLines(args: seq<Arg>): seq<string> {
    if args == [] then []
    else
      var a := args[|args| - 1];
      ArgLines(args[..|args| - 1]) + (if a.hide then [] else HelpLines("USAGE", a.help, a.helpLong))
  }

  /** The lines of the shown flags, each under its usage. */
  function FlagLines(flags: seq<Flag>): seq<string> {
    if flags == [] then []
    else
      var f := flags[|flags| - 1];
      FlagLines(flags[..|flags| - 1]) + (if f.hide then [] else HelpLines(f.usage, f.help, f.helpLong))
  }

  function CommandTexts(t: Templates, cmds: seq<Command>): (r: seq<string>)
    ensures |r| == |cmds|
    ensures forall i :: 0 <= i < |cmds| ==> r[i] == t.command(cmds[i])
  {
    if cmds == [] then [] else CommandTexts(t, cmds[..|cmds| - 1]) + [t.command(cmds[|cmds| - 1])]
  }

  /** A directive that writes generated text between itself and an end. */
  predicate IsContent(d: Directive) {
    d.Title? || d.UsageOverview? || d.GlobalArgs? || d.GlobalFlags? || d.Commands? || d.PrintConfig?
  }

  /** The `plain` flag after a directive: kept by plain text and loads, set
      by an end, cleared by every other directive. */
  function Switch(plain: bool, d: Directive): bool {
    if d.Plain? || d.Load? then plain else d.EndToken?
  }

  /** The generated text of a content directive. */
  function Body(spec: Spec, t: Templates, d: Directive): seq<string>
    requires IsContent(d)
  {
    match d
    case Title(_) => [t.title]
    case UsageOverview(_) => [t.overview]
    case GlobalArgs(_) => ArgLines(spec.cmd.args)
    case GlobalFlags(_) => FlagLines(spec.cmd.flags)
    case Commands(_, _) => [t.commandsIndex] + CommandTexts(t, Gathered(spec.cmd))
    case PrintConfig(_) => [t.config]
  }

  /** The lines one directive adds, given the flag after it. */
  function Pushed(spec: Spec, t: Templates, plain: bool, d: Directive): Result<seq<string>, MdError> {
    if d.Commands? && d.inlineDepth == 1 then Err(Panic("not implemented: inline_depth=1"))
    else if IsContent(d) then Ok([d.token] + Body(spec, t, d) + [EndMarker])
    else if d.Load? then Ok([d.token])
    else if d.Plain? && plain then Ok([d.token])
    else Ok([])
  }

  datatype RenderState = RenderState(plain: bool, lines: seq<string>)

  /** The state after the directives, from `plain` set and no lines. */
  function Run(spec: Spec, t: Templates, ds: seq<Directive>): (r: Result<RenderState, MdError>)
    ensures r.Err? ==> r.error.Panic?
    ensures r.Ok? ==> forall i :: 0 <= i < |ds| ==> !(ds[i].Commands? && ds[i].inlineDepth == 1)
  {
    if ds == [] then Ok(RenderState(true, []))
    else
      match Run(spec, t, ds[..|ds| - 1])
      case Err(e) => Err(e)
      case Ok(st) =>
        var d := ds[|ds| - 1];
        var plain := Switch(st.plain, d);
        match Pushed(spec, t, plain, d)
        case Err(e) => Err(e)
        case Ok(p) => Ok(RenderState(plain, st.lines + p))
  }

  /** The joined lines, trimmed, with one line break at the end. */
  function Finish(lines: seq<string>): string {
    Trim(Join(lines, "\n")) + "\n"
  }

  /** The text `render` writes back to the file. */
  function Rendered(spec: Spec, t: Templates, ds: seq<Directive>): Result<string, MdError> {
    match Run(spec, t, ds)
    case Err(e) => Err(e)
    case Ok(st) => Ok(Finish(st.lines))
  }

  /** The last directive that sets or clears the flag. */
  function LastToggle(ds: seq<Directive>): Option<Directive> {
    if ds == [] then None
    else if ds[|ds| - 1].Plain? || ds[|ds| - 1].Load? then LastToggle(ds[..|ds| - 1])
    else Some(ds[|ds| - 1])
  }

  /** Plain text is copied exactly when no directive has come since the last
      end marker: the flag is set after the directives exactly when the
      last one that toggles it is an end, or there is none. */
  lemma {:induction false} RunPlain(spec: Spec, t: Templates, ds: seq<Directive>)
    requires Run(spec, t, ds).Ok?
    ensures Run(spec, t, ds).value.plain <==> LastToggle(ds).None? || LastToggle(ds) == Some(EndToken)
  {
    if ds != [] {
      RunPlain(spec, t, ds[..|ds| - 1]);
    }
  }

  /** A plain line after some directives is copied exactly when the last
      toggle before it is an end marker or there is none. */
  lemma PlainCopied(spec: Spec, t: Templates, ds: seq<Directive>, token: string)
    requires Run(spec, t, ds).Ok?
    ensures Run(spec, t, ds + [Plain(token)]).Ok?
    ensures Run(spec, t, ds + [Plain(token)]).value.lines
      == Run(spec, t, ds).value.lines + (if LastToggle(ds).None? || LastToggle(ds) == Some(EndToken) then [token] else [])
  {
    RunPlain(spec, t, ds);
    assert (ds + [Plain(token)])[..|ds|] == ds;
  }

  /** A content directive writes its own line, the generated text and the
      end marker. */
  lemma ContentFramed(spec: Spec, t: Templates, plain: bool, d: Directive)
    requires IsContent(d) && !(d.Commands? && d.inlineDepth == 1)
    ensures Pushed(spec, t, plain, d).Ok?
    ensures var p := Pushed(spec, t, plain, d).value; |p| >= 2 && p[0] == d.token && p[|p| - 1] == EndMarker
  {
  }

  /** Rendering fails exactly when a commands directive asks for one level
      inline. */
  lemma {:induction false} RunFails(spec: Spec, t: Templates, ds: seq<Directive>)
    ensures Run(spec, t, ds).Err? <==> exists i :: 0 <= i < |ds| && ds[i].Commands? && ds[i].inlineDepth == 1
  {
    if ds != [] {
      var init := ds[..|ds| - 1];
      RunFails(spec, t, init);
      assert forall i :: 0 <= i < |init| ==> init[i] == ds[i];
      if (exists i :: 0 <= i < |ds| && ds[i].Commands? && ds[i].inlineDepth == 1) && Run(spec, t, init).Ok? {
        var i :| 0 <= i < |ds| && ds[i].Commands? && ds[i].inlineDepth == 1;
        assert i == |ds| - 1;
      }
    }
  }

  /** The written text ends with exactly one line break, after text that
      neither begins nor ends with white space. */
  lemma FinishSpec(lines: seq<string>)
    ensures var out := Finish(lines);
      && |out| >= 1 && out[|out| - 1] == '\n'
      && (|out| == 1 || (!IsSpace(out[0]) && !IsSpace(out[|out| - 2])))
  {
    var s := TrimStart(Join(lines, "\n"));
    var r := TrimEnd(s);
    TrimEndShape(s);
    if r != [] {
      assert r[0] == s[0];
    }
  }

  /** The generated lines for one directive, as `render`'s match computes
      them. */
  method Emit(spec: Spec, t: Templates, plain: bool, d: Directive) returns (r: Result<seq<string>, MdError>)
    ensures r == Pushed(spec, t, plain, d)
  {
    match d {
      case Load(token, _) =>
        r := Ok([token]);
      case Title(token) =>
        r := Ok([token] + [t.title] + [EndMarker]);
      case UsageOverview(token) =>
        r := Ok([token] + [t.overview] + [EndMarker]);
      case GlobalArgs(token) =>
        var lines := ArgDocs(spec.cmd.args);
        r := Ok([token] + lines + [EndMarker]);
      case GlobalFlags(token) =>
        var lines := FlagDocs(spec.cmd.flags);
        r := Ok([token] + lines + [EndMarker]);
      case Commands(token, depth) =>
        if depth == 1 {
          r := Err(Panic("not implemented: inline_depth=1"));
        } else {
          var cmds := GatherOne(spec.cmd);
          var lines := [t.commandsIndex];
          for j := 0 to |cmds|
            invariant lines == [t.commandsIndex] + CommandTexts(t, cmds[..j])
          {
            assert cmds[..j + 1][..j] == cmds[..j];
            lines := lines + [t.command(cmds[j])];
          }
          assert cmds[..|cmds|] == cmds;
          r := Ok([token] + lines + [EndMarker]);
        }
      case PrintConfig(token) =>
        r := Ok([token] + [t.config] + [EndMarker]);
      case EndToken =>
        r := Ok([]);
      case Plain(token) =>
        r := if plain then Ok([token]) else Ok([]);
    }
  }

  /** The global arguments' lines: the loop over the shown arguments. */
  method ArgDocs(args: seq<Arg>) returns (lines: seq<string>)
    ensures lines == ArgLines(args)
  {
    lines := [];
    for i := 0 to |args|
      invariant lines == ArgLines(args[..i])
    {
      assert args[..i + 1][..i] == args[..i];
      var a := args[i];
      if !a.hide {
        lines := lines + HelpLines("USAGE", a.help, a.helpLong);
      }
    }
    assert args[..|args|] == args;
  }

  /** The global flags' lines: the loop over the shown flags. */
  method FlagDocs(flags: seq<Flag>) returns (lines: seq<string>)
    ensures lines == FlagLines(flags)
  {
    lines := [];
    for i := 0 to |flags|
      invariant lines == FlagLines(flags[..i])
    {
      assert flags[..i + 1][..i] == flags[..i];
      var f := flags[i];
      if !f.hide {
        lines := lines + HelpLines(f.usage, f.help, f.helpLong);
      }
    }
    assert flags[..|flags|] == flags;
  }

  /** One more directive: the flag switches, then its lines are added. */
  lemma RunStep(spec: Spec, t: Templates, ds: seq<Directive>, i: nat, st: RenderState)
    requires i < |ds| && Run(spec, t, ds[..i]) == Ok(st)
    ensures var plain := Switch(st.plain, ds[i]);
      Run(spec, t, ds[..i + 1]) == match Pushed(spec, t, plain, ds[i])
        case Err(e) => Err(e)
        case Ok(p) => Ok(RenderState(plain, st.lines + p))
  {
    assert ds[..i + 1][..i] == ds[..i];
  }

  /** A failure in a prefix is the failure of the whole run. */
  lemma {:induction false} RunErr(spec: Spec, t: Templates, ds: seq<Directive>, i: nat)
    requires i <= |ds| && Run(spec, t, ds[..i]).Err?
    ensures Run(spec, t, ds) == Run(spec, t, ds[..i])
    decreases |ds| - i
  {
    if i < |ds| {
      assert ds[..i + 1][..i] == ds[..i];
      RunErr(spec, t, ds, i + 1);
    } else {
      assert ds[..i] == ds;
    }
  }

  /** `MarkdownBuilder`: the file's directives, the commands and the spec
      loaded by a load directive. */
  class MarkdownBuilder {
    var directives: seq<Directive>
    var commands: seq<Command>
    var spec: Option<Spec>

    /** `MarkdownBuilder::new`: nothing loaded yet. */
    constructor (ds: seq<Directive>)
      ensures directives == ds && commands == [] && spec == None
    {
      directives := ds;
      commands := [];
      spec := None;
    }

    /** `load`: every load directive reads its spec file (through
        `parseFile`), the last one read wins; without any, loading fails. */
    method LoadSpecs(parseFile: string -> Result<Spec, MdError>) returns (err: Option<MdError>)
      requires spec.None?
      modifies this
      ensures directives == old(directives)
      ensures err.None? <==> Loaded(directives, parseFile).Ok? && Loaded(directives, parseFile).value.Some?
      ensures err.None? ==> spec == Loaded(directives, parseFile).value
      ensures err.None? ==> commands == Gathered(spec.value.cmd)
      ensures Loaded(directives, parseFile).Err? ==> err == Some(Loaded(directives, parseFile).error)
      ensures Loaded(directives, parseFile) == Ok(None) ==> err == Some(Error("spec must be loaded before title"))
    {
      for i := 0 to |directives|
        invariant directives == old(directives)
        invariant Loaded(directives[..i], parseFile) == Ok(spec)
        invariant spec.Some? ==> commands == Gathered(spec.value.cmd)
      {
        var d := directives[i];
        LoadedStep(directives, i, parseFile);
        if d.Load? {
          var parsed := parseFile(d.file);
          if parsed.Err? {
            LoadedErr(directives, i + 1, parseFile);
            return Some(parsed.error);
          }
          var gathered := GatherOne(parsed.value.cmd);
          ShownOfGathered(parsed.value.cmd);
          commands := Shown(gathered);
          spec := Some(parsed.value);
        }
      }
      assert directives[..|directives|] == directives;
      if spec.None? {
        return Some(Error("spec must be loaded before title"));
      }
      err := None;
    }

    /** `render`: the directives in order with the `plain` flag, the lines
        joined, trimmed and closed by one line break. */
    method Render(t: Templates) returns (r: Result<string, MdError>)
      requires spec.Some? && commands != []
      ensures r == Rendered(spec.value, t, directives)
    {
      var s := spec.value;
      var plain := true;
      var main: seq<string> := [];
      for i := 0 to |directives|
        invariant Run(s, t, directives[..i]) == Ok(RenderState(plain, main))
      {
        var d := directives[i];
        ghost var old_plain := plain;
        if d.Plain? || d.Load? {
        } else if d.EndToken? {
          plain := true;
        } else {
          plain := false;
        }
        assert plain == Switch(old_plain, d);
        RunStep(s, t, directives, i, RenderState(old_plain, main));
        var pushed := Emit(s, t, plain, d);
        if pushed.Err? {
          RunErr(s, t, directives, i + 1);
          return Err(pushed.error);
        }
        main := main + pushed.value;
      }
      assert directives[..|directives|] == directives;
      r := Ok(Finish(main));
    }
  }

  /** `load`'s filter on the gathered commands. */
  function Shown(cmds: seq<Command>): (r: seq<Command>)
    ensures |r| <= |cmds|
  {
    if cmds == [] then []
    else Shown(cmds[..|cmds| - 1]) + (if cmds[|cmds| - 1].hide then [] else [cmds[|cmds| - 1]])
  }

  /** The filter keeps exactly the commands that are not hidden. */
  lemma {:induction false} ShownMembers(cmds: seq<Command>)
    ensures forall c :: c in Shown(cmds) <==> c in cmds && !c.hide
  {
    if cmds != [] {
      var init := cmds[..|cmds| - 1];
      ShownMembers(init);
      assert cmds == init + [cmds[|cmds| - 1]];
    }
  }

  /** The gathered commands are all shown, so `load`'s filter keeps them
      all. */
  lemma {:induction false} ShownGathered(cmds: seq<Command>)
    requires forall i :: 0 <= i < |cmds| ==> !cmds[i].hide
    ensures Shown(cmds) == cmds
  {
    if cmds != [] {
      var init := cmds[..|cmds| - 1];
      assert forall i :: 0 <= i < |init| ==> init[i] == cmds[i];
      ShownGathered(init);
      assert init + [cmds[|cmds| - 1]] == cmds;
    }
  }

  /** The spec the load directives leave: the last one read, or none. */
  function Loaded(ds: seq<Directive>, parseFile: string -> Result<Spec, MdError>): Result<Option<Spec>, MdError> {
    if ds == [] then Ok(None)
    else
      match Loaded(ds[..|ds| - 1], parseFile)
      case Err(e) => Err(e)
      case Ok(prev) =>
        var d := ds[|ds| - 1];
        if d.Load? then
          match parseFile(d.file)
          case Err(e) => Err(e)
          case Ok(s) => Ok(Some(s))
        else Ok(prev)
  }

  /** One more directive: a load reads its file, anything else keeps the
      spec. */
  lemma LoadedStep(ds: seq<Directive>, i: nat, parseFile: string -> Result<Spec, MdError>)
    requires i < |ds| && Loaded(ds[..i], parseFile).Ok?
    ensures !ds[i].Load? ==> Loaded(ds[..i + 1], parseFile) == Loaded(ds[..i], parseFile)
    ensures ds[i].Load? ==> Loaded(ds[..i + 1], parseFile) == match parseFile(ds[i].file)
      case Err(e) => Err(e)
      case Ok(s) => Ok(Some(s))
  {
    assert ds[..i + 1][..i] == ds[..i];
  }

  /** `load` keeps every gathered command. */
  lemma ShownOfGathered(cmd: Command)
    ensures Shown(Gathered(cmd)) == Gathered(cmd)
  {
    var cmds := Gathered(cmd);
    GatheredShown(cmd);
    assert forall j :: 0 <= j < |cmds| ==> cmds[j] in cmds;
    ShownGathered(cmds);
  }

  lemma {:induction false} LoadedErr(ds: seq<Directive>, i: nat, parseFile: string -> Result<Spec, MdError>)
    requires i <= |ds| && Loaded(ds[..i], parseFile).Err?
    ensures Loaded(ds, parseFile) == Loaded(ds[..i], parseFile)
    decreases |ds| - i
  {
    if i < |ds| {
      assert ds[..i + 1][..i] == ds[..i];
      LoadedErr(ds, i + 1, parseFile);
    } else {
      assert ds[..i] == ds;
    }
  }
}
