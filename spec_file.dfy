/** The top-level spec of the usage library (lib/src/spec/mod.rs): reading
    the spec out of a script's comments, splitting a spec file from the
    script after it, giving every subcommand its path from the root, merging
    an included spec, and the defaults for the name and the binary. */
module SpecFile {
  import opened Wrappers
  import opened Strings
  import opened UsageSpec
  import opened SpecCommands

  // ---------------------------------------------------------------------
  // The spec in a script's comments
  // ---------------------------------------------------------------------

  /** A comment line that holds part of a spec. */
  predicate IsUsageLine(l: string) {
    StartsWith(l, "#USAGE") || StartsWith(l, "//USAGE")
  }

  /** What a usage line holds: the text after its marker, trimmed. */
  function UsageText(l: string): string {
    Trim(if StartsWith(l, "#USAGE") then l[6..] else TrimPrefix(l, "//USAGE"))
  }

  /** The texts of the usage lines read from `lines`; `found` says whether
      one was already read, in which case any other line ends the run. */
  function Collect(lines: seq<string>, found: bool): seq<string> {
    if lines == [] then []
    else if IsUsageLine(lines[0]) then [UsageText(lines[0])] + Collect(lines[1..], true)
    else if found then []
    else Collect(lines[1..], false)
  }

  /** What `extract_usage_from_comments` returns. */
  function ExtractUsage(full: string): (r: string)
    ensures !HasUsageLine(Lines(full)) ==> r == ""
  {
    CollectNone(Lines(full), false);
    Join(Collect(Lines(full), false), "\n")
  }

  /** Without a usage line nothing is read. */
  lemma {:induction false} CollectNone(lines: seq<string>, found: bool)
    ensures !HasUsageLine(lines) ==> Collect(lines, found) == []
    decreases |lines|
  {
    if lines != [] && !HasUsageLine(lines) {
      assert !IsUsageLine(lines[0]);
      if !found {
        assert !HasUsageLine(lines[1..]) by {
          forall k | 0 <= k < |lines| - 1 ensures !IsUsageLine(lines[1..][k]) {
            assert lines[1..][k] == lines[k + 1];
          }
        }
        CollectNone(lines[1..], false);
      }
    }
  }

  /** `extract_usage_from_comments`. */
  method ExtractUsageFromComments(full: string) returns (r: string)
    ensures r == ExtractUsage(full)
  {
    var lines := Lines(full);
    var usage: seq<string> := [];
    var found := false;
    var i := 0;
    while i < |lines|
      invariant 0 <= i <= |lines|
      invariant usage + Collect(lines[i..], found) == Collect(lines, false)
    {
      var line := lines[i];
      CollectAt(lines, i, found);
      if IsUsageLine(line) {
        found := true;
        var text := CutMarker(line);
        assert usage + [text] + Collect(lines[i + 1..], true) == usage + ([text] + Collect(lines[i + 1..], true));
        usage := usage + [text];
      } else if found {
        assert usage + [] == usage;
        break;
      }
      i := i + 1;
    }
    if i == |lines| {
      assert lines[i..] == [];
      assert usage + [] == usage;
    }
    r := Join(usage, "\n");
  }

  /** `Collect` from line `i` on, one line at a time. */
  lemma CollectAt(lines: seq<string>, i: nat, found: bool)
    requires i < |lines|
    ensures IsUsageLine(lines[i]) ==> Collect(lines[i..], found) == [UsageText(lines[i])] + Collect(lines[i + 1..], true)
    ensures !IsUsageLine(lines[i]) && found ==> Collect(lines[i..], found) == []
    ensures !IsUsageLine(lines[i]) && !found ==> Collect(lines[i..], found) == Collect(lines[i + 1..], false)
  {
    assert lines[i..][1..] == lines[i + 1..];
  }

  /** Cutting the marker off a usage line by its length, then trimming,
      is what `UsageText` does. */
  method CutMarker(line: string) returns (text: string)
    requires IsUsageLine(line)
    ensures text == UsageText(line)
  {
    var rest := if StartsWith(line, "#USAGE") then line[6..] else line[7..];
    text := Trim(rest);
  }

  /** The texts of `ls`, line by line. */
  function Texts(ls: seq<string>): (r: seq<string>)
    ensures |r| == |ls|
  {
    if ls == [] then [] else [UsageText(ls[0])] + Texts(ls[1..])
  }

  predicate AllUsage(ls: seq<string>) {
    forall k :: 0 <= k < |ls| ==> IsUsageLine(ls[k])
  }

  /** Once a usage line has been read, what is read is the run of usage
      lines at the front, up to the first other line. */
  lemma {:induction false} RunAtFront(lines: seq<string>) returns (e: nat)
    ensures e <= |lines|
    ensures AllUsage(lines[..e])
    ensures e < |lines| ==> !IsUsageLine(lines[e])
    ensures Collect(lines, true) == Texts(lines[..e])
    decreases |lines|
  {
    if lines == [] || !IsUsageLine(lines[0]) {
      e := 0;
    } else {
      var e1 := RunAtFront(lines[1..]);
      e := e1 + 1;
      var run := lines[..e];
      assert run[0] == lines[0];
      assert run[1..] == lines[1..][..e1];
      assert Texts(run) == [UsageText(lines[0])] + Texts(lines[1..][..e1]);
      assert AllUsage(run) by {
        forall k | 0 <= k < e ensures IsUsageLine(run[k]) {
          if k > 0 {
            assert run[k] == lines[1..][..e1][k - 1];
          }
        }
      }
      assert e < |lines| ==> lines[e] == lines[1..][e1];
    }
  }

  /** The spec read from comments is the first run of usage lines, each
      without its marker and trimmed; lines before the run are skipped and
      the first line after it ends the reading. */
  lemma {:induction false} CollectRun(lines: seq<string>) returns (s: nat, e: nat)
    ensures s <= e <= |lines|
    ensures forall k :: 0 <= k < s ==> !IsUsageLine(lines[k])
    ensures AllUsage(lines[s..e])
    ensures e < |lines| ==> !IsUsageLine(lines[e])
    ensures Collect(lines, false) == Texts(lines[s..e])
    decreases |lines|
  {
    if lines == [] {
      s, e := 0, 0;
    } else if IsUsageLine(lines[0]) {
      e := RunAtFront(lines);
      s := 0;
      assert lines[s..e] == lines[..e];
    } else {
      var s1, e1 := CollectRun(lines[1..]);
      s, e := s1 + 1, e1 + 1;
      SkipLine(lines, s1, e1);
    }
  }

  /** A line before the run moves the run one line on. */
  lemma SkipLine(lines: seq<string>, s1: nat, e1: nat)
    requires lines != [] && !IsUsageLine(lines[0]) && s1 <= e1 <= |lines| - 1
    requires forall k :: 0 <= k < s1 ==> !IsUsageLine(lines[1..][k])
    requires AllUsage(lines[1..][s1..e1])
    requires e1 < |lines| - 1 ==> !IsUsageLine(lines[1..][e1])
    requires Collect(lines[1..], false) == Texts(lines[1..][s1..e1])
    ensures forall k :: 0 <= k < s1 + 1 ==> !IsUsageLine(lines[k])
    ensures AllUsage(lines[s1 + 1..e1 + 1])
    ensures e1 + 1 < |lines| ==> !IsUsageLine(lines[e1 + 1])
    ensures Collect(lines, false) == Texts(lines[s1 + 1..e1 + 1])
  {
    SkippedBefore(lines, s1);
    CollectSkips(lines);
    ShiftedRun(lines, s1, e1);
  }

  lemma ShiftedRun(lines: seq<string>, s1: nat, e1: nat)
    requires lines != [] && s1 <= e1 <= |lines| - 1
    ensures lines[s1 + 1..e1 + 1] == lines[1..][s1..e1]
    ensures e1 + 1 < |lines| ==> lines[e1 + 1] == lines[1..][e1]
  {
    var shifted, run := lines[s1 + 1..e1 + 1], lines[1..][s1..e1];
    assert |shifted| == e1 - s1 == |run|;
    forall k | 0 <= k < e1 - s1 ensures shifted[k] == run[k] {
      assert run[k] == lines[1..][s1 + k] == lines[s1 + 1 + k];
    }
  }

  lemma CollectSkips(lines: seq<string>)
    requires lines != [] && !IsUsageLine(lines[0])
    ensures Collect(lines, false) == Collect(lines[1..], false)
  {
  }

  lemma SkippedBefore(lines: seq<string>, s1: nat)
    requires lines != [] && !IsUsageLine(lines[0]) && s1 <= |lines| - 1
    requires forall k :: 0 <= k < s1 ==> !IsUsageLine(lines[1..][k])
    ensures forall k :: 0 <= k < s1 + 1 ==> !IsUsageLine(lines[k])
  {
    forall k | 0 < k < s1 + 1 ensures !IsUsageLine(lines[k]) {
      assert lines[k] == lines[1..][k - 1];
    }
  }

  // ---------------------------------------------------------------------
  // Splitting a spec file from its script
  // ---------------------------------------------------------------------

  const Shebang: string := "#!/usr/bin/env usage\n"
  const ScriptStart: string := "\n#!"

  predicate HasUsageLine(lines: seq<string>) {
    exists k :: 0 <= k < |lines| && IsUsageLine(lines[k])
  }

  /** The lines that do not start with `#`, in order. */
  function DropComments(ls: seq<string>): (r: seq<string>)
    ensures forall k :: 0 <= k < |r| ==> !StartsWith(r[k], "#")
    ensures forall l :: l in r <==> l in ls && !StartsWith(l, "#")
  {
    if ls == [] then []
    else (if StartsWith(ls[0], "#") then [] else [ls[0]]) + DropComments(ls[1..])
  }

  /** `split_once("\n#!")` with the whole text as spec when there is no
      script: the spec, and the script without its leading `#!`. */
  function SchemaAndBody(t: string): (r: (string, string))
    ensures Contains(t, ScriptStart) ==> t == r.0 + "\n" + ("#!" + r.1) && !Contains(r.0 + "\n#", ScriptStart)
    ensures !Contains(t, ScriptStart) ==> r == (t, "")
  {
    match SplitOnce(t, ScriptStart)
    case Some(p) =>
      assert ScriptStart[..|ScriptStart| - 1] == "\n#";
      assert p.0 + ScriptStart + p.1 == p.0 + "\n" + ("#!" + p.1);
      assert p.0 + ScriptStart[..|ScriptStart| - 1] == p.0 + "\n#";
      assert t[|p.0|..|p.0| + |ScriptStart|] == ScriptStart by {
        assert t == p.0 + (ScriptStart + p.1);
      }
      assert OccursAt(t, ScriptStart, |p.0|);
      p
    case None => (t, "")
  }

  /** The string part of `split_script`: the spec and the script. */
  function SplitScript(full: string): (r: (string, string))
    ensures StartsWith(r.1, "#!")
  {
    if StartsWith(full, "#!") && HasUsageLine(Lines(full)) then (ExtractUsage(full), full)
    else
      var parts := SchemaAndBody(TrimPrefix(full, Shebang));
      StartsWithAppend("#!", parts.1);
      (Join(DropComments(Lines(Trim(parts.0))), "\n"), "#!" + parts.1)
  }

  /** A script with a shebang and usage comments is its own body and its
      spec is read from the comments. */
  lemma SplitEmbedded(full: string)
    requires StartsWith(full, "#!") && HasUsageLine(Lines(full))
    ensures SplitScript(full).0 == ExtractUsage(full)
    ensures SplitScript(full).1 == full
  {
  }

  /** Otherwise the script is everything from the `#!` of the first `\n#!`
      after the optional `#!/usr/bin/env usage` line, and is `#!` alone when
      there is none; a `#!` at the very start is not a split point. */
  lemma SplitPlain(full: string)
    requires !(StartsWith(full, "#!") && HasUsageLine(Lines(full)))
    ensures StartsWith(SplitScript(full).1, "#!")
    ensures var t := TrimPrefix(full, Shebang);
      Contains(t, ScriptStart) ==> exists a :: t == a + "\n" + SplitScript(full).1 && !Contains(a + "\n#", ScriptStart)
    ensures !Contains(TrimPrefix(full, Shebang), ScriptStart) ==> SplitScript(full).1 == "#!"
  {
    var t := TrimPrefix(full, Shebang);
    var parts := SchemaAndBody(t);
    var body := SplitScript(full).1;
    assert body == "#!" + parts.1;
    StartsWithAppend("#!", parts.1);
    if Contains(t, ScriptStart) {
      assert t == parts.0 + "\n" + body;
    }
  }

  // ---------------------------------------------------------------------
  // Paths of subcommands
  // ---------------------------------------------------------------------

  /** `set_subcommand_ancestors` on a command whose path becomes `full`:
      each subcommand's path is `ancestors` and its own name, its own
      subcommands get paths under it, and the usage is computed, last, only
      where it is empty. */
  function Place(c: Command, full: seq<string>, ancestors: seq<string>): (r: Command)
    ensures r.name == c.name && r.fullCmd == full
    decreases c, 1
  {
    var c1 := c.(fullCmd := full, subcommands := PlaceAll(c.subcommands, ancestors));
    if |c1.usage| == 0 then c1.(usage := CmdUsage(c1)) else c1
  }

  function PlaceAll(subs: seq<Entry<Command>>, ancestors: seq<string>): (r: seq<Entry<Command>>)
    ensures |r| == |subs|
    ensures forall i :: 0 <= i < |subs| ==> r[i].key == subs[i].key
    decreases subs, 0
  {
    if subs == [] then []
    else
      var s := subs[0].value;
      var path := ancestors + [s.name];
      [Entry(subs[0].key, Place(s, path, path))] + PlaceAll(subs[1..], ancestors)
  }

  /** `set_subcommand_ancestors(cmd, ancestors)`: the command keeps its own
      path. */
  function SetSubcommandAncestors(c: Command, ancestors: seq<string>): Command {
    Place(c, c.fullCmd, ancestors)
  }

  /** Every subcommand, at every depth, has as path the path it is placed
      under followed by its own name. */
  predicate PathsUnder(c: Command, ancestors: seq<string>)
    decreases c, 1
  {
    PathsAllUnder(c.subcommands, ancestors)
  }

  predicate PathsAllUnder(subs: seq<Entry<Command>>, ancestors: seq<string>)
    decreases subs, 0
  {
    subs == [] ||
    (var s := subs[0].value;
     && s.fullCmd == ancestors + [s.name]
     && PathsUnder(s, ancestors + [s.name])
     && PathsAllUnder(subs[1..], ancestors))
  }

  /** After placing, every descendant's path is its path from the root. */
  lemma {:induction false} PlacePaths(c: Command, full: seq<string>, ancestors: seq<string>)
    ensures PathsUnder(Place(c, full, ancestors), ancestors)
    decreases c, 1
  {
    PlaceAllPaths(c.subcommands, ancestors);
  }

  lemma {:induction false} PlaceAllPaths(subs: seq<Entry<Command>>, ancestors: seq<string>)
    ensures PathsAllUnder(PlaceAll(subs, ancestors), ancestors)
    decreases subs, 0
  {
    if subs != [] {
      var s := subs[0].value;
      var path := ancestors + [s.name];
      PlacePaths(s, path, path);
      PlaceAllPaths(subs[1..], ancestors);
      assert PlaceAll(subs, ancestors)[1..] == PlaceAll(subs[1..], ancestors);
    }
  }

  /** A usage that was set is kept; an empty one is computed from the
      placed command. */
  lemma PlaceUsage(c: Command, full: seq<string>, ancestors: seq<string>)
    ensures |c.usage| > 0 ==> Place(c, full, ancestors).usage == c.usage
    ensures |c.usage| == 0 ==> Place(c, full, ancestors).usage == CmdUsage(Place(c, full, ancestors))
  {
  }

  /** Placing twice is placing once. */
  lemma {:induction false} PlaceTwice(c: Command, full: seq<string>, ancestors: seq<string>)
    ensures Place(Place(c, full, ancestors), full, ancestors) == Place(c, full, ancestors)
    decreases c, 1
  {
    PlaceAllTwice(c.subcommands, ancestors);
    var r := Place(c, full, ancestors);
    var c1 := c.(fullCmd := full, subcommands := PlaceAll(c.subcommands, ancestors));
    assert CmdUsage(r) == CmdUsage(c1);
  }

  lemma {:induction false} PlaceAllTwice(subs: seq<Entry<Command>>, ancestors: seq<string>)
    ensures PlaceAll(PlaceAll(subs, ancestors), ancestors) == PlaceAll(subs, ancestors)
    decreases subs, 0
  {
    if subs != [] {
      var s := subs[0].value;
      var path := ancestors + [s.name];
      PlaceTwice(s, path, path);
      PlaceAllTwice(subs[1..], ancestors);
      assert PlaceAll(subs, ancestors)[1..] == PlaceAll(subs[1..], ancestors);
    }
  }

  // ---------------------------------------------------------------------
  // Merging an included spec
  // ---------------------------------------------------------------------

  predicate ConfigIsEmpty(c: Config) {
    c.entries == []
  }

  /** What `Spec::merge` leaves in `a` when `b` is merged into it; merging
      two non-empty configurations is `SpecConfig::merge`, given here as
      `mergeConfig`. */
  function MergeSpec(a: Spec, b: Spec, mergeConfig: (Config, Config) -> Config): (r: Spec)
    ensures r.name == b.name || (b.name == [] && r.name == a.name)
    ensures r.bin == b.bin || (b.bin == [] && r.bin == a.bin)
    ensures r.usage == b.usage || (b.usage == [] && r.usage == a.usage)
    ensures r.about == b.about || (b.about.None? && r.about == a.about)
    ensures r.version == b.version || (b.version.None? && r.version == a.version)
    ensures r.author == b.author || (b.author.None? && r.author == a.author)
    ensures ConfigIsEmpty(b.config) ==> r.config == a.config
    ensures b.complete == [] ==> r.complete == a.complete
  {
    a.(name := if |b.name| > 0 then b.name else a.name,
       bin := if |b.bin| > 0 then b.bin else a.bin,
       usage := if |b.usage| > 0 then b.usage else a.usage,
       about := b.about.Or(a.about),
       sourceCodeLinkTemplate := b.sourceCodeLinkTemplate.Or(a.sourceCodeLinkTemplate),
       version := b.version.Or(a.version),
       author := b.author.Or(a.author),
       aboutLong := b.aboutLong.Or(a.aboutLong),
       aboutMd := b.aboutMd.Or(a.aboutMd),
       config := if !ConfigIsEmpty(b.config) then mergeConfig(a.config, b.config) else a.config,
       complete := if |b.complete| > 0 then InsertAll(a.complete, b.complete) else a.complete,
       disableHelp := b.disableHelp.Or(a.disableHelp),
       cmd := MergeCmd(a.cmd, b.cmd))
  }

  /** `Spec::merge`, step by step. */
  method MergeSpecInto(self: Spec, other: Spec, mergeConfig: (Config, Config) -> Config) returns (r: Spec)
    ensures r == MergeSpec(self, other, mergeConfig)
  {
    var name := KeepList(self.name, other.name);
    var bin := KeepList(self.bin, other.bin);
    var usage := KeepList(self.usage, other.usage);
    var about := KeepOption(self.about, other.about);
    var link := KeepOption(self.sourceCodeLinkTemplate, other.sourceCodeLinkTemplate);
    var version := KeepOption(self.version, other.version);
    var author := KeepOption(self.author, other.author);
    var aboutLong := KeepOption(self.aboutLong, other.aboutLong);
    var aboutMd := KeepOption(self.aboutMd, other.aboutMd);
    var config := self.config;
    if !ConfigIsEmpty(other.config) {
      config := mergeConfig(self.config, other.config);
    }
    var complete := self.complete;
    if |other.complete| > 0 {
      complete := InsertEach(self.complete, other.complete);
    }
    var disableHelp := KeepOption(self.disableHelp, other.disableHelp);
    var cmd := Merge(self.cmd, other.cmd);
    r := self.(name := name, bin := bin, usage := usage, about := about,
      sourceCodeLinkTemplate := link, version := version, author := author,
      aboutLong := aboutLong, aboutMd := aboutMd, config := config,
      complete := complete, disableHelp := disableHelp, cmd := cmd);
  }

  /** A spec that provides nothing but its command's two always-copied
      flags. */
  function BlankSpec(a: Spec): Spec {
    DefaultSpec.(cmd := Blank(a.cmd))
  }

  /** Merging a spec that provides nothing changes nothing. */
  lemma MergeSpecBlank(a: Spec, mergeConfig: (Config, Config) -> Config)
    ensures MergeSpec(a, BlankSpec(a), mergeConfig) == a
  {
    MergeBlank(a.cmd);
  }

  /** The merged completions: the included spec's entry when it has one by
      that name, the first spec's otherwise. */
  lemma MergeSpecCompletes(a: Spec, b: Spec, mergeConfig: (Config, Config) -> Config, k: string)
    requires UniqueKeys(b.complete)
    ensures Get(MergeSpec(a, b, mergeConfig).complete, k) == Get(b.complete, k).Or(Get(a.complete, k))
  {
    InsertAllGet(a.complete, b.complete, k);
    LastGetUnique(b.complete, k);
  }

  // ---------------------------------------------------------------------
  // Names
  // ---------------------------------------------------------------------

  /** The top-level nodes of a spec, as far as the name and the binary go. */
  datatype TopNode = NameNode(value: string) | BinNode(value: string) | OtherNode

  /** The name and the binary after reading `nodes` in `Spec::parse`: a
      `name` node sets the name; a `bin` node sets the binary, and the name
      too while it is still empty. */
  function NamesAfter(nodes: seq<TopNode>): (string, string)
    decreases |nodes|
  {
    if nodes == [] then ("", "")
    else
      var p := NamesAfter(nodes[..|nodes| - 1]);
      match nodes[|nodes| - 1]
      case NameNode(v) => (v, p.1)
      case BinNode(v) => (if |p.0| == 0 then v else p.0, v)
      case OtherNode => p
  }

  /** The name of the root command: the binary if set, the name otherwise. */
  function RootName(name: string, bin: string): string {
    if |bin| == 0 then name else bin
  }

  /** The name and binary part of `Spec::parse`. */
  method ReadNames(nodes: seq<TopNode>) returns (name: string, bin: string, cmdName: string)
    ensures (name, bin) == NamesAfter(nodes)
    ensures cmdName == RootName(name, bin)
  {
    name, bin := "", "";
    for i := 0 to |nodes|
      invariant (name, bin) == NamesAfter(nodes[..i])
    {
      assert nodes[..i + 1][..i] == nodes[..i];
      match nodes[i]
      case NameNode(v) =>
        name := v;
      case BinNode(v) =>
        bin := v;
        if |name| == 0 {
          name := bin;
        }
      case OtherNode =>
    }
    assert nodes[..|nodes|] == nodes;
    cmdName := if |bin| == 0 then name else bin;
  }

  /** The value of the first `bin` node with a non-empty value. */
  function FirstBin(nodes: seq<TopNode>): string {
    if nodes == [] then ""
    else if nodes[0].BinNode? && |nodes[0].value| > 0 then nodes[0].value
    else FirstBin(nodes[1..])
  }

  lemma {:induction false} FirstBinAppend(nodes: seq<TopNode>, x: TopNode)
    ensures FirstBin(nodes + [x]) == if |FirstBin(nodes)| > 0 then FirstBin(nodes)
      else if x.BinNode? && |x.value| > 0 then x.value else ""
    decreases |nodes|
  {
    if nodes == [] {
      assert [x][1..] == [];
    } else {
      assert (nodes + [x])[1..] == nodes[1..] + [x];
      FirstBinAppend(nodes[1..], x);
    }
  }

  /** Without a `name` node the name is the first non-empty binary. */
  lemma {:induction false} NameFromBin(nodes: seq<TopNode>)
    requires forall k :: 0 <= k < |nodes| ==> !nodes[k].NameNode?
    ensures NamesAfter(nodes).0 == FirstBin(nodes)
    decreases |nodes|
  {
    if nodes != [] {
      var init := nodes[..|nodes| - 1];
      NameFromBin(init);
      FirstBinAppend(init, nodes[|nodes| - 1]);
      assert init + [nodes[|nodes| - 1]] == nodes;
    }
  }

  /** A non-empty `name` node that no other `name` node follows gives the
      name; the binary is the value of the last `bin` node. */
  lemma {:induction false} NameFromLastName(nodes: seq<TopNode>, i: nat)
    requires i < |nodes| && nodes[i].NameNode? && |nodes[i].value| > 0
    requires forall k :: i < k < |nodes| ==> !nodes[k].NameNode?
    ensures NamesAfter(nodes).0 == nodes[i].value
    decreases |nodes|
  {
    var n := |nodes| - 1;
    if i < n {
      var init := nodes[..n];
      assert init[i] == nodes[i];
      NameFromLastName(init, i);
    }
  }

  /** The binary is the value of the last `bin` node, or empty. */
  lemma {:induction false} BinFromLastBin(nodes: seq<TopNode>, i: nat)
    requires i < |nodes| && nodes[i].BinNode?
    requires forall k :: i < k < |nodes| ==> !nodes[k].BinNode?
    ensures NamesAfter(nodes).1 == nodes[i].value
    decreases |nodes|
  {
    var n := |nodes| - 1;
    if i < n {
      var init := nodes[..n];
      assert init[i] == nodes[i];
      BinFromLastBin(init, i);
    }
  }

  /** `parse_file`: an empty binary becomes the file's name, then an empty
      name becomes the binary. */
  function FileDefaults(s: Spec, fileName: string): (r: Spec)
    ensures r.(name := s.name, bin := s.bin) == s
  {
    var s1 := if |s.bin| == 0 then s.(bin := fileName) else s;
    if |s1.name| == 0 then s1.(name := s1.bin) else s1
  }

  /** `Spec::is_empty`. */
  predicate SpecIsEmpty(s: Spec) {
    |s.name| == 0 && |s.bin| == 0 && |s.usage| == 0 && IsEmpty(s.cmd) && ConfigIsEmpty(s.config)
  }

  /** A spec read from a file with a name has a name and a binary, so it
      is not empty; reading the defaults again changes nothing. */
  lemma FileDefaultsNamed(s: Spec, fileName: string)
    requires |fileName| > 0
    ensures |FileDefaults(s, fileName).name| > 0 && |FileDefaults(s, fileName).bin| > 0
    ensures !SpecIsEmpty(FileDefaults(s, fileName))
    ensures FileDefaults(FileDefaults(s, fileName), fileName) == FileDefaults(s, fileName)
  {
  }

  /** An explicit name and binary are kept. */
  lemma FileDefaultsKeep(s: Spec, fileName: string)
    ensures |s.bin| > 0 ==> FileDefaults(s, fileName).bin == s.bin
    ensures |s.name| > 0 ==> FileDefaults(s, fileName).name == s.name
    ensures |s.name| == 0 ==> FileDefaults(s, fileName).name == FileDefaults(s, fileName).bin
  {
  }
}
