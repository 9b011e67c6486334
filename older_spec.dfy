/** The top-level spec of the older usage library (lib/src/parse/spec.rs):
    reading a spec out of a block of comments between two marker lines,
    splitting a spec file from the script after it, giving every
    subcommand its path from the root, merging an included spec, and the
    defaults for the name and the binary. The older command record and its
    `usage` and `merge` are not part of this model: the current `Command`
    stands for the record, and the two operations are parameters. */
module OlderSpec {
  import opened Wrappers
  import opened Strings
  import opened UsageSpec
  import SpecCommands
  import SpecFile

  /** The line that opens and closes a block of spec comments. */
  const Marker: string := "# |usage.jdx.dev|"

  // ---------------------------------------------------------------------
  // The spec in a block of comments
  // ---------------------------------------------------------------------

  /** `extract_usage_from_comments` as written, from the front of the
      lines: a marker line flips `inside`; a line inside a block must start
      with `# `, which is dropped, and any other inside line makes the
      `unwrap` panic, given here as `None`. */
  function ExtractAsWritten(lines: seq<string>, inside: bool): (r: Option<seq<string>>)
    ensures r.Some? ==> |r.value| <= |lines|
  {
    if lines == [] then Some([])
    else if StartsWith(lines[0], Marker) then ExtractAsWritten(lines[1..], !inside)
    else if inside then
      if StartsWith(lines[0], "# ") then
        match ExtractAsWritten(lines[1..], inside)
        case None => None
        case Some(rest) => Some([lines[0][2..]] + rest)
      else None
    else ExtractAsWritten(lines[1..], inside)
  }

  /** What an inside line holds: the text after `# `, else after `#`, else
      the whole line. */
  function CommentText(l: string): (r: string)
    ensures StartsWith(l, "# ") ==> l == "# " + r
    ensures !StartsWith(l, "# ") && StartsWith(l, "#") ==> l == "#" + r
    ensures !StartsWith(l, "#") ==> r == l
  {
    if StartsWith(l, "# ") then l[2..] else if StartsWith(l, "#") then l[1..] else l
  }

  /** `extract_usage_from_comments` with the inside line read by
      `CommentText` instead of the panicking `unwrap`. */
  function Extract(lines: seq<string>, inside: bool): (r: seq<string>)
    ensures |r| <= |lines|
    ensures forall x :: x in r ==> exists l :: l in lines && x == CommentText(l)
  {
    if lines == [] then []
    else if StartsWith(lines[0], Marker) then Extract(lines[1..], !inside)
    else if inside then [CommentText(lines[0])] + Extract(lines[1..], inside)
    else Extract(lines[1..], inside)
  }

  /** `usage.join("\n")` after the loop, as written. */
  function ExtractUsageAsWritten(full: string): Option<string> {
    match ExtractAsWritten(Lines(full), false)
    case None => None
    case Some(ls) => Some(Join(ls, "\n"))
  }

  /** The loop of `extract_usage_from_comments`, line by line; `None` is the
      panic. */
  method ExtractUsageFromComments(full: string) returns (r: Option<string>)
    ensures r == ExtractUsageAsWritten(full)
  {
    var lines := Lines(full);
    var usage: seq<string> := [];
    var inside := false;
    assert lines[0..] == lines;
    PrependEmpty(ExtractAsWritten(lines, false));
    for i := 0 to |lines|
      invariant ExtractAsWritten(lines, false) == Prepend(usage, ExtractAsWritten(lines[i..], inside))
    {
      assert lines[i..][1..] == lines[i + 1..];
      var line := lines[i];
      if StartsWith(line, Marker) {
        inside := !inside;
        continue;
      }
      if inside {
        if !StartsWith(line, "# ") {
          return None;
        }
        PrependCons(usage, line[2..], ExtractAsWritten(lines[i + 1..], inside));
        usage := usage + [line[2..]];
      }
    }
    assert lines[|lines|..] == [];
    assert usage + [] == usage;
    return Some(Join(usage, "\n"));
  }

  /** `Some(u + rest)`, or `None`. */
  function Prepend(u: seq<string>, o: Option<seq<string>>): Option<seq<string>> {
    match o
    case None => None
    case Some(rest) => Some(u + rest)
  }

  lemma PrependEmpty(o: Option<seq<string>>)
    ensures Prepend([], o) == o
  {
    if o.Some? {
      assert [] + o.value == o.value;
    }
  }

  lemma PrependCons(u: seq<string>, x: string, o: Option<seq<string>>)
    ensures Prepend(u, match o case None => None case Some(rest) => Some([x] + rest)) == Prepend(u + [x], o)
  {
    if o.Some? {
      AppendAssoc(u, [x], o.value);
    }
  }

  /** `inside` after reading the lines: flipped once per marker line. */
  function Flip(lines: seq<string>, inside: bool): bool {
    if lines == [] then inside
    else Flip(lines[1..], inside != StartsWith(lines[0], Marker))
  }

  /** Line `i` lies inside a block and the code cannot read it. */
  predicate Unreadable(lines: seq<string>, i: int, inside: bool) {
    && 0 <= i < |lines| && !StartsWith(lines[i], Marker) && !StartsWith(lines[i], "# ")
    && Flip(lines[..i], inside)
  }

  /** Line `i + 1` of the lines is line `i` of their tail. */
  lemma UnreadableTail(lines: seq<string>, i: int, inside: bool)
    requires 0 < |lines| && 0 <= i
    ensures Unreadable(lines, i + 1, inside) <==> Unreadable(lines[1..], i, inside != StartsWith(lines[0], Marker))
  {
    if 0 <= i < |lines| - 1 {
      assert lines[..i + 1][1..] == lines[1..][..i];
      assert lines[..i + 1] != [] && lines[..i + 1][0] == lines[0];
      assert lines[1..][i] == lines[i + 1];
    }
  }

  /** The code panics exactly when some inside line does not start with
      `# `; when it does not panic, it reads what `Extract` reads. */
  lemma {:induction false} ExtractAsWrittenSpec(lines: seq<string>, inside: bool)
    ensures ExtractAsWritten(lines, inside).None? <==> exists i :: Unreadable(lines, i, inside)
    ensures ExtractAsWritten(lines, inside).Some? ==> ExtractAsWritten(lines, inside).value == Extract(lines, inside)
    decreases |lines|
  {
    if lines != [] {
      var next := inside != StartsWith(lines[0], Marker);
      ExtractAsWrittenSpec(lines[1..], next);
      assert lines[..0] == [];
      if !StartsWith(lines[0], Marker) && inside && !StartsWith(lines[0], "# ") {
        assert Unreadable(lines, 0, inside);
      }
      if exists j :: Unreadable(lines[1..], j, next) {
        var j :| Unreadable(lines[1..], j, next);
        UnreadableTail(lines, j, inside);
      }
      if exists i :: Unreadable(lines, i, inside) {
        var i :| Unreadable(lines, i, inside);
        if i > 0 {
          UnreadableTail(lines, i - 1, inside);
        }
      }
    }
  }

  /** `CommentText` of every line, in order. */
  function CommentTexts(ls: seq<string>): (r: seq<string>)
    ensures |r| == |ls|
    ensures forall i :: 0 <= i < |ls| ==> r[i] == CommentText(ls[i])
  {
    if ls == [] then [] else [CommentText(ls[0])] + CommentTexts(ls[1..])
  }

  predicate NoMarker(ls: seq<string>) {
    forall i :: 0 <= i < |ls| ==> !StartsWith(ls[i], Marker)
  }

  /** Reading splits at any point, `inside` carried across. */
  lemma {:induction false} ExtractAppend(a: seq<string>, b: seq<string>, inside: bool)
    ensures Extract(a + b, inside) == Extract(a, inside) + Extract(b, Flip(a, inside))
    ensures Flip(a + b, inside) == Flip(b, Flip(a, inside))
    decreases |a|
  {
    if a == [] {
      assert a + b == b;
    } else {
      var next := inside != StartsWith(a[0], Marker);
      assert (a + b)[0] == a[0] && (a + b)[1..] == a[1..] + b;
      ExtractAppend(a[1..], b, next);
      if !StartsWith(a[0], Marker) && inside {
        AppendAssoc([CommentText(a[0])], Extract(a[1..], inside), Extract(b, Flip(a, inside)));
      }
    }
  }

  /** Outside a block, marker-free lines give nothing; inside one, their
      comment texts. */
  lemma {:induction false} ExtractPlain(ls: seq<string>, inside: bool)
    requires NoMarker(ls)
    ensures Extract(ls, inside) == if inside then CommentTexts(ls) else []
    ensures Flip(ls, inside) == inside
    decreases |ls|
  {
    if ls != [] {
      ExtractPlain(ls[1..], inside);
    }
  }

  lemma MarkerLine(inside: bool)
    ensures Extract([Marker], inside) == [] && Flip([Marker], inside) == !inside
  {
    assert Marker[..|Marker|] == Marker;
    assert [Marker][1..] == [];
  }

  /** The block between two markers is what is read, its comment prefixes
      dropped, whatever marker-free lines stand before and after it. */
  lemma ExtractBlock(before: seq<string>, block: seq<string>, after: seq<string>)
    requires NoMarker(before) && NoMarker(block) && NoMarker(after)
    ensures Extract(before + [Marker] + block + [Marker] + after, false) == CommentTexts(block)
  {
    var m := [Marker];
    MarkerLine(false);
    MarkerLine(true);
    ExtractPlain(before, false);
    ExtractPlain(block, true);
    ExtractPlain(after, false);
    ExtractAppend(before, m, false);
    ExtractAppend(before + m, block, false);
    ExtractAppend(before + m + block, m, false);
    ExtractAppend(before + m + block + m, after, false);
  }

  /** A block holding a bare `#` line: the code panics where the line is
      evidently meant as an empty line of the spec. */
  lemma BareHashPanics()
    ensures ExtractAsWritten([Marker, "#", Marker], false).None?
    ensures Extract([Marker, "#", Marker], false) == [""]
  {
    var ls := [Marker, "#", Marker];
    assert Marker[..|Marker|] == Marker;
    assert !StartsWith("#", Marker) && !StartsWith("#", "# ") && StartsWith("#", "#");
    assert ls[1..] == ["#", Marker] && ls[1..][1..] == [Marker] && [Marker][1..] == [];
    assert Extract([Marker], true) == [];
  }

  /** Lines written as `# ` comments read back as themselves. */
  lemma CommentTextsRoundTrip(ls: seq<string>)
    ensures CommentTexts(Prefixed("# ", ls)) == ls
  {
    forall i | 0 <= i < |ls|
      ensures CommentText("# " + ls[i]) == ls[i]
    {
      var l := "# " + ls[i];
      assert l[..2] == "# " && l[2..] == ls[i];
    }
  }

  /** Spec lines written as `# ` comments between two markers are read
      back as they were written. */
  lemma BlockRoundTrip(before: seq<string>, ls: seq<string>, after: seq<string>)
    requires NoMarker(before) && NoMarker(Prefixed("# ", ls)) && NoMarker(after)
    ensures Join(Extract(before + [Marker] + Prefixed("# ", ls) + [Marker] + after, false), "\n") == Join(ls, "\n")
  {
    ExtractBlock(before, Prefixed("# ", ls), after);
    CommentTextsRoundTrip(ls);
  }

  // ---------------------------------------------------------------------
  // The spec file
  // ---------------------------------------------------------------------

  /** The string part of `split_script`, with the corrected reading of the
      comment block: a text that holds the marker is its own script and its
      spec is read from the block; otherwise the optional
      `#!/usr/bin/env usage` line is dropped, the text up to the first line
      starting with `#!` is the spec, trimmed and without its `#` lines,
      and the rest is the script. Without the marker the split is the
      current library's plain split, so the script starts with `#!`. */
  function SplitOlderScript(full: string): (r: (string, string))
    ensures Contains(full, Marker) ==> r.1 == full
    ensures !Contains(full, Marker) && !(StartsWith(full, "#!") && SpecFile.HasUsageLine(Lines(full))) ==>
      r == SpecFile.SplitScript(full)
    ensures !Contains(full, Marker) ==> StartsWith(r.1, "#!")
  {
    if Contains(full, Marker) then (Join(Extract(Lines(full), false), "\n"), full)
    else
      var parts := SpecFile.SchemaAndBody(TrimPrefix(full, SpecFile.Shebang));
      StartsWithAppend("#!", parts.1);
      (Join(SpecFile.DropComments(Lines(Trim(parts.0))), "\n"), "#!" + parts.1)
  }

  // ---------------------------------------------------------------------
  // Paths of subcommands
  // ---------------------------------------------------------------------

  /** `set_subcommand_ancestors` of the older library on a command whose
      path has become `full`: an empty usage is filled first, from the
      command as it stands, with the older `SpecCommand::usage` given as
      `cmdUsage`; then each subcommand gets `ancestors` and its own name as
      path and is placed under it. */
  function OlderPlace(c: Command, full: seq<string>, ancestors: seq<string>, cmdUsage: Command -> string)
    : (r: Command)
    ensures r.name == c.name && r.fullCmd == full
    ensures |c.usage| > 0 ==> r.usage == c.usage
    ensures |c.usage| == 0 ==> r.usage == cmdUsage(c.(fullCmd := full))
    decreases c, 1
  {
    var c0 := c.(fullCmd := full);
    var c1 := if |c0.usage| == 0 then c0.(usage := cmdUsage(c0)) else c0;
    c1.(subcommands := OlderPlaceAll(c.subcommands, ancestors, cmdUsage))
  }

  function OlderPlaceAll(subs: seq<Entry<Command>>, ancestors: seq<string>, cmdUsage: Command -> string)
    : (r: seq<Entry<Command>>)
    ensures |r| == |subs|
    ensures forall i :: 0 <= i < |subs| ==> r[i].key == subs[i].key && r[i].value.name == subs[i].value.name
    decreases subs, 0
  {
    if subs == [] then []
    else
      var s := subs[0].value;
      var path := ancestors + [s.name];
      [Entry(subs[0].key, OlderPlace(s, path, path, cmdUsage))] + OlderPlaceAll(subs[1..], ancestors, cmdUsage)
  }

  /** `set_subcommand_ancestors(cmd, ancestors)`: the command keeps its own
      path. */
  function OlderSetSubcommandAncestors(c: Command, ancestors: seq<string>, cmdUsage: Command -> string): Command {
    OlderPlace(c, c.fullCmd, ancestors, cmdUsage)
  }

  /** After placing, every descendant's path is its path from the root,
      exactly as with the current library's placement. */
  lemma {:induction false} OlderPlacePaths(c: Command, full: seq<string>, ancestors: seq<string>,
                                           cmdUsage: Command -> string)
    ensures SpecFile.PathsUnder(OlderPlace(c, full, ancestors, cmdUsage), ancestors)
    decreases c, 1
  {
    OlderPlaceAllPaths(c.subcommands, ancestors, cmdUsage);
  }

  lemma {:induction false} OlderPlaceAllPaths(subs: seq<Entry<Command>>, ancestors: seq<string>,
                                              cmdUsage: Command -> string)
    ensures SpecFile.PathsAllUnder(OlderPlaceAll(subs, ancestors, cmdUsage), ancestors)
    decreases subs, 0
  {
    if subs != [] {
      var s := subs[0].value;
      var path := ancestors + [s.name];
      OlderPlacePaths(s, path, path, cmdUsage);
      OlderPlaceAllPaths(subs[1..], ancestors, cmdUsage);
      assert OlderPlaceAll(subs, ancestors, cmdUsage)[1..] == OlderPlaceAll(subs[1..], ancestors, cmdUsage);
    }
  }

  /** The older placement and the current one differ only in the usages
      they fill in: with every usage already set they agree. */
  lemma {:induction false} OlderPlaceAgrees(c: Command, full: seq<string>, ancestors: seq<string>,
                                            cmdUsage: Command -> string)
    requires UsagesSet(c)
    ensures OlderPlace(c, full, ancestors, cmdUsage) == SpecFile.Place(c, full, ancestors)
    decreases c, 1
  {
    OlderPlaceAllAgrees(c.subcommands, ancestors, cmdUsage);
  }

  lemma {:induction false} OlderPlaceAllAgrees(subs: seq<Entry<Command>>, ancestors: seq<string>,
                                               cmdUsage: Command -> string)
    requires UsagesAllSet(subs)
    ensures OlderPlaceAll(subs, ancestors, cmdUsage) == SpecFile.PlaceAll(subs, ancestors)
    decreases subs, 0
  {
    if subs != [] {
      var s := subs[0].value;
      var path := ancestors + [s.name];
      OlderPlaceAgrees(s, path, path, cmdUsage);
      OlderPlaceAllAgrees(subs[1..], ancestors, cmdUsage);
    }
  }

  /** Every command of the tree has a usage. */
  predicate UsagesSet(c: Command)
    decreases c, 1
  {
    |c.usage| > 0 && UsagesAllSet(c.subcommands)
  }

  predicate UsagesAllSet(subs: seq<Entry<Command>>)
    decreases subs, 0
  {
    subs == [] || (UsagesSet(subs[0].value) && UsagesAllSet(subs[1..]))
  }

  // ---------------------------------------------------------------------
  // Merging an included spec
  // ---------------------------------------------------------------------

  /** What the older `Spec::merge` leaves in `a` when `b` is merged into
      it: the name, binary and usage when `b` gives them, the about texts
      when `b` has them, the configuration merged (`mergeConfig`) when
      `b`'s is not empty, `b`'s completions inserted, and the commands
      merged by the older `SpecCommand::merge`, given as `mergeCmd`. */
  function OlderMerge(a: Spec, b: Spec, mergeConfig: (Config, Config) -> Config, mergeCmd: (Command, Command) -> Command)
    : (r: Spec)
    ensures r.(name := a.name, bin := a.bin, usage := a.usage, about := a.about, aboutLong := a.aboutLong,
               config := a.config, complete := a.complete, cmd := a.cmd) == a
  {
    a.(name := if |b.name| > 0 then b.name else a.name,
       bin := if |b.bin| > 0 then b.bin else a.bin,
       usage := if |b.usage| > 0 then b.usage else a.usage,
       about := if b.about.Some? then b.about else a.about,
       aboutLong := if b.aboutLong.Some? then b.aboutLong else a.aboutLong,
       config := if !SpecFile.ConfigIsEmpty(b.config) then mergeConfig(a.config, b.config) else a.config,
       complete := if |b.complete| > 0 then SpecCommands.InsertAll(a.complete, b.complete) else a.complete,
       cmd := mergeCmd(a.cmd, b.cmd))
  }

  /** The older `Spec::merge`, step by step. */
  method MergeOlderInto(self: Spec, other: Spec, mergeConfig: (Config, Config) -> Config,
                        mergeCmd: (Command, Command) -> Command) returns (r: Spec)
    ensures r == OlderMerge(self, other, mergeConfig, mergeCmd)
  {
    var name := SpecCommands.KeepList(self.name, other.name);
    var bin := SpecCommands.KeepList(self.bin, other.bin);
    var usage := SpecCommands.KeepList(self.usage, other.usage);
    var about := SpecCommands.KeepOption(self.about, other.about);
    var aboutLong := SpecCommands.KeepOption(self.aboutLong, other.aboutLong);
    var config := self.config;
    if !SpecFile.ConfigIsEmpty(other.config) {
      config := mergeConfig(self.config, other.config);
    }
    var complete := self.complete;
    if |other.complete| > 0 {
      complete := SpecCommands.InsertEach(self.complete, other.complete);
    }
    r := self.(name := name, bin := bin, usage := usage, about := about, aboutLong := aboutLong,
               config := config, complete := complete, cmd := mergeCmd(self.cmd, other.cmd));
  }

  /** A name, binary or usage the included spec gives wins, and so do its
      about texts; a completion is the included spec's when it has one by
      that name. */
  lemma OlderMergeProvided(a: Spec, b: Spec, mergeConfig: (Config, Config) -> Config,
                           mergeCmd: (Command, Command) -> Command, k: string)
    requires UniqueKeys(b.complete)
    ensures var m := OlderMerge(a, b, mergeConfig, mergeCmd);
      && m.name == (if |b.name| > 0 then b.name else a.name)
      && m.bin == (if |b.bin| > 0 then b.bin else a.bin)
      && m.usage == (if |b.usage| > 0 then b.usage else a.usage)
      && m.about == b.about.Or(a.about) && m.aboutLong == b.aboutLong.Or(a.aboutLong)
      && Get(m.complete, k) == Get(b.complete, k).Or(Get(a.complete, k))
  {
    SpecCommands.InsertAllGet(a.complete, b.complete, k);
    SpecCommands.LastGetUnique(b.complete, k);
  }

  /** When the included spec gives none of the fields the older merge
      ignores, the older merge with the current command merge is the
      current library's merge. */
  lemma OlderMergeAgrees(a: Spec, b: Spec, mergeConfig: (Config, Config) -> Config)
    requires b.version.None? && b.author.None? && b.aboutMd.None?
    requires b.sourceCodeLinkTemplate.None? && b.disableHelp.None?
    ensures OlderMerge(a, b, mergeConfig, SpecCommands.MergeCmd) == SpecFile.MergeSpec(a, b, mergeConfig)
  {
  }

  /** Merging a spec that gives nothing leaves everything but the command,
      which is left to the command merge. */
  lemma OlderMergeBlank(a: Spec, mergeConfig: (Config, Config) -> Config, mergeCmd: (Command, Command) -> Command)
    ensures OlderMerge(a, DefaultSpec.(cmd := a.cmd), mergeConfig, mergeCmd) == a.(cmd := mergeCmd(a.cmd, a.cmd))
  {
  }

  /** `parse_file` on the file's text and name; reading the spec text is
      `parse`, and the defaults are the current library's. */
  method ParseOlderFile<E>(full: string, fileName: string, parse: string -> Result<Spec, E>)
    returns (r: Result<(Spec, string), E>)
    ensures parse(SplitOlderScript(full).0).Err? ==> r == Err(parse(SplitOlderScript(full).0).error)
    ensures parse(SplitOlderScript(full).0).Ok? ==>
      r == Ok((SpecFile.FileDefaults(parse(SplitOlderScript(full).0).value, fileName), SplitOlderScript(full).1))
  {
    var split := SplitOlderScript(full);
    var parsed := parse(split.0);
    if parsed.Err? {
      return Err(parsed.error);
    }
    var spec := parsed.value;
    if |spec.bin| == 0 {
      spec := spec.(bin := fileName);
    }
    if |spec.name| == 0 {
      spec := spec.(name := spec.bin);
    }
    r := Ok((spec, split.1));
  }
}
