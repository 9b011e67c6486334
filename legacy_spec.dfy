/** The top-level spec of the first usage crate (src/parse/spec.rs and the
    command record of src/parse/cmd.rs): merging an included spec by
    appending, splitting a spec file from the script after it, and the
    defaults for the name and the binary. */
module LegacySpec {
  import opened Wrappers
  import opened Strings
  import opened UsageSpec
  import opened LegacyArgs
  import opened LegacyFlags
  import SpecCommands
  import SpecFile

  /** `SchemaCmd`; the subcommands are an insertion-ordered map. */
  datatype LegacyCmd = LegacyCmd(
    fullCmd: seq<string>,
    subcommands: seq<Entry<LegacyCmd>>,
    args: seq<LegacyArg>,
    flags: seq<LegacyFlag>,
    hide: bool,
    subcommandRequired: bool,
    help: Option<string>,
    longHelp: Option<string>,
    name: string,
    aliases: seq<string>,
    hiddenAliases: seq<string>,
    beforeHelp: Option<string>,
    beforeLongHelp: Option<string>,
    afterHelp: Option<string>,
    afterLongHelp: Option<string>)

  const DefaultLegacyCmd: LegacyCmd :=
    LegacyCmd([], [], [], [], false, false, None, None, "", [], [], None, None, None, None)

  /** `Spec` of the first crate. */
  datatype LegacySpec = LegacySpec(name: string, bin: string, cmd: LegacyCmd)

  const DefaultLegacySpec: LegacySpec := LegacySpec("", "", DefaultLegacyCmd)

  // ---------------------------------------------------------------------
  // Merge
  // ---------------------------------------------------------------------

  /** What `merge` leaves in `a` when `b` is merged into it: a non-empty
      name or binary of `b` replaces `a`'s, `b`'s flags and arguments come
      after `a`'s, and `b`'s subcommands are inserted into `a`'s. */
  function LegacyMerge(a: LegacySpec, b: LegacySpec): (r: LegacySpec)
    ensures r.name == b.name || (b.name == [] && r.name == a.name)
    ensures r.bin == b.bin || (b.bin == [] && r.bin == a.bin)
    ensures |r.cmd.flags| == |a.cmd.flags| + |b.cmd.flags| && |r.cmd.args| == |a.cmd.args| + |b.cmd.args|
    ensures r.cmd.flags[..|a.cmd.flags|] == a.cmd.flags && r.cmd.flags[|a.cmd.flags|..] == b.cmd.flags
    ensures r.cmd.args[..|a.cmd.args|] == a.cmd.args && r.cmd.args[|a.cmd.args|..] == b.cmd.args
  {
    a.(name := if |b.name| > 0 then b.name else a.name,
       bin := if |b.bin| > 0 then b.bin else a.bin,
       cmd := a.cmd.(flags := a.cmd.flags + b.cmd.flags,
                     args := a.cmd.args + b.cmd.args,
                     subcommands := SpecCommands.InsertAll(a.cmd.subcommands, b.cmd.subcommands)))
  }

  /** `Spec::merge`: a push per flag and per argument, an insertion per
      subcommand. */
  method MergeLegacy(self: LegacySpec, other: LegacySpec) returns (r: LegacySpec)
    ensures r == LegacyMerge(self, other)
  {
    var name := self.name;
    if |other.name| > 0 {
      name := other.name;
    }
    var bin := self.bin;
    if |other.bin| > 0 {
      bin := other.bin;
    }
    var flags := self.cmd.flags;
    for i := 0 to |other.cmd.flags|
      invariant flags == self.cmd.flags + other.cmd.flags[..i]
    {
      assert other.cmd.flags[..i + 1] == other.cmd.flags[..i] + [other.cmd.flags[i]];
      flags := flags + [other.cmd.flags[i]];
    }
    assert other.cmd.flags[..|other.cmd.flags|] == other.cmd.flags;
    var args := self.cmd.args;
    for i := 0 to |other.cmd.args|
      invariant args == self.cmd.args + other.cmd.args[..i]
    {
      assert other.cmd.args[..i + 1] == other.cmd.args[..i] + [other.cmd.args[i]];
      args := args + [other.cmd.args[i]];
    }
    assert other.cmd.args[..|other.cmd.args|] == other.cmd.args;
    var subs := self.cmd.subcommands;
    var os := other.cmd.subcommands;
    for i := 0 to |os|
      invariant subs == SpecCommands.InsertAll(self.cmd.subcommands, os[..i])
    {
      assert os[..i + 1][..i] == os[..i];
      subs := UsageSpec.Insert(subs, os[i].key, os[i].value);
    }
    assert os[..|os|] == os;
    r := self.(name := name, bin := bin, cmd := self.cmd.(flags := flags, args := args, subcommands := subs));
  }

  /** A name or binary the included spec provides wins; otherwise the
      first spec's stays. Nothing but the names, the flags, the arguments
      and the subcommands changes. */
  lemma LegacyMergeNames(a: LegacySpec, b: LegacySpec)
    ensures |b.name| > 0 ==> LegacyMerge(a, b).name == b.name
    ensures |b.name| == 0 ==> LegacyMerge(a, b).name == a.name
    ensures |b.bin| > 0 ==> LegacyMerge(a, b).bin == b.bin
    ensures |b.bin| == 0 ==> LegacyMerge(a, b).bin == a.bin
    ensures LegacyMerge(a, b).cmd.(flags := a.cmd.flags, args := a.cmd.args, subcommands := a.cmd.subcommands) == a.cmd
  {
  }

  /** Flags and arguments are appended: the first spec's stay in front, in
      order, and the included spec's follow, in order. */
  lemma LegacyMergeAppends(a: LegacySpec, b: LegacySpec)
    ensures var m := LegacyMerge(a, b);
      && |m.cmd.flags| == |a.cmd.flags| + |b.cmd.flags|
      && (forall i :: 0 <= i < |a.cmd.flags| ==> m.cmd.flags[i] == a.cmd.flags[i])
      && (forall i :: 0 <= i < |b.cmd.flags| ==> m.cmd.flags[|a.cmd.flags| + i] == b.cmd.flags[i])
      && |m.cmd.args| == |a.cmd.args| + |b.cmd.args|
      && (forall i :: 0 <= i < |a.cmd.args| ==> m.cmd.args[i] == a.cmd.args[i])
      && (forall i :: 0 <= i < |b.cmd.args| ==> m.cmd.args[|a.cmd.args| + i] == b.cmd.args[i])
  {
  }

  /** A subcommand of the merged spec is the included spec's last one by
      that key, or the first spec's; the first spec's keys keep their
      places, and unique keys stay unique. */
  lemma LegacyMergeSubcommands(a: LegacySpec, b: LegacySpec, k: string)
    ensures var m := LegacyMerge(a, b).cmd.subcommands;
      && Get(m, k) == SpecCommands.LastGet(b.cmd.subcommands, k).Or(Get(a.cmd.subcommands, k))
      && |m| >= |a.cmd.subcommands|
      && (forall i :: 0 <= i < |a.cmd.subcommands| ==> m[i].key == a.cmd.subcommands[i].key)
      && (UniqueKeys(a.cmd.subcommands) ==> UniqueKeys(m))
  {
    SpecCommands.InsertAllGet(a.cmd.subcommands, b.cmd.subcommands, k);
    SpecCommands.InsertAllKeeps(a.cmd.subcommands, b.cmd.subcommands);
    if UniqueKeys(a.cmd.subcommands) {
      SpecCommands.InsertAllUnique(a.cmd.subcommands, b.cmd.subcommands);
    }
  }

  /** Inserting entries with keys new to the map, and to each other,
      appends them. */
  lemma {:induction false} InsertAllFresh<V>(es: seq<Entry<V>>, os: seq<Entry<V>>)
    requires UniqueKeys(es + os)
    ensures SpecCommands.InsertAll(es, os) == es + os
    decreases |os|
  {
    if os != [] {
      var n := |os| - 1;
      var init := os[..n];
      assert es + os == (es + init) + [os[n]];
      assert UniqueKeys(es + init) by {
        forall i, j | 0 <= i < j < |es + init|
          ensures (es + init)[i].key != (es + init)[j].key
        {
          assert (es + init)[i] == (es + os)[i] && (es + init)[j] == (es + os)[j];
        }
      }
      InsertAllFresh(es, init);
      assert IndexOf(es + init, os[n].key).None? by {
        forall i | 0 <= i < |es + init|
          ensures (es + init)[i].key != os[n].key
        {
          assert (es + init)[i] == (es + os)[i] && os[n] == (es + os)[|es| + n];
        }
        match IndexOf(es + init, os[n].key)
        case None =>
        case Some(j) =>
      }
    }
  }

  /** Merging into an empty spec gives the included spec, when its
      subcommand keys are unique. */
  lemma LegacyMergeIntoDefault(b: LegacySpec)
    requires UniqueKeys(b.cmd.subcommands)
    ensures LegacyMerge(DefaultLegacySpec, b).cmd.flags == b.cmd.flags
    ensures LegacyMerge(DefaultLegacySpec, b).cmd.args == b.cmd.args
    ensures LegacyMerge(DefaultLegacySpec, b).cmd.subcommands == b.cmd.subcommands
    ensures LegacyMerge(DefaultLegacySpec, b).name == b.name && LegacyMerge(DefaultLegacySpec, b).bin == b.bin
  {
    assert [] + b.cmd.subcommands == b.cmd.subcommands;
    InsertAllFresh([], b.cmd.subcommands);
  }

  /** Merging an empty spec changes nothing. */
  lemma LegacyMergeDefault(a: LegacySpec)
    ensures LegacyMerge(a, DefaultLegacySpec) == a
  {
    assert a.cmd.flags + [] == a.cmd.flags;
    assert a.cmd.args + [] == a.cmd.args;
  }

  /** Flags and arguments of three merged specs come out the same whichever
      pair is merged first. */
  lemma LegacyMergeAssocLists(a: LegacySpec, b: LegacySpec, c: LegacySpec)
    ensures LegacyMerge(LegacyMerge(a, b), c).cmd.flags == LegacyMerge(a, LegacyMerge(b, c)).cmd.flags
    ensures LegacyMerge(LegacyMerge(a, b), c).cmd.args == LegacyMerge(a, LegacyMerge(b, c)).cmd.args
    ensures LegacyMerge(LegacyMerge(a, b), c).name == LegacyMerge(a, LegacyMerge(b, c)).name
    ensures LegacyMerge(LegacyMerge(a, b), c).bin == LegacyMerge(a, LegacyMerge(b, c)).bin
  {
    AppendAssoc(a.cmd.flags, b.cmd.flags, c.cmd.flags);
    AppendAssoc(a.cmd.args, b.cmd.args, c.cmd.args);
  }

  // ---------------------------------------------------------------------
  // The spec file
  // ---------------------------------------------------------------------

  /** The string part of `split_script`: the optional `#!/usr/bin/env
      usage` line is dropped, the text up to the first `\n#!` is the spec,
      trimmed, and the rest from that `#!` on is the script; a `#!` at the
      very start of the text is not a split point. */
  function SplitLegacyScript(full: string): (r: (string, string))
    ensures StartsWith(r.1, "#!")
  {
    var parts := SpecFile.SchemaAndBody(TrimPrefix(full, SpecFile.Shebang));
    StartsWithAppend("#!", parts.1);
    (Trim(parts.0), "#!" + parts.1)
  }

  /** The script starts with `#!`; it is what follows the spec and a line
      break at the first `\n#!`, and it is `#!` alone when the text holds
      no `\n#!`. */
  lemma SplitLegacyScriptSpec(full: string)
    ensures StartsWith(SplitLegacyScript(full).1, "#!")
    ensures var t := TrimPrefix(full, SpecFile.Shebang);
      Contains(t, SpecFile.ScriptStart) ==>
        && SpecFile.SchemaAndBody(t).0 + "\n" + SplitLegacyScript(full).1 == t
        && !Contains(SpecFile.SchemaAndBody(t).0 + "\n#", SpecFile.ScriptStart)
        && SplitLegacyScript(full).0 == Trim(SpecFile.SchemaAndBody(t).0)
    ensures !Contains(TrimPrefix(full, SpecFile.Shebang), SpecFile.ScriptStart) ==>
      SplitLegacyScript(full) == (Trim(TrimPrefix(full, SpecFile.Shebang)), "#!")
  {
    var t := TrimPrefix(full, SpecFile.Shebang);
    var parts := SpecFile.SchemaAndBody(t);
    StartsWithAppend("#!", parts.1);
    if !Contains(t, SpecFile.ScriptStart) {
      assert "#!" + parts.1 == "#!";
    }
  }

  /** `parse_file`: an empty binary becomes the file's name, then an empty
      name becomes the binary. */
  function LegacyFileDefaults(s: LegacySpec, fileName: string): (r: LegacySpec)
    ensures r.cmd == s.cmd
  {
    var s1 := if |s.bin| == 0 then s.(bin := fileName) else s;
    if |s1.name| == 0 then s1.(name := s1.bin) else s1
  }

  /** A spec read from a file with a name has a name and a binary; an
      explicit name and binary are kept; reading the defaults again changes
      nothing. */
  lemma LegacyFileDefaultsSpec(s: LegacySpec, fileName: string)
    ensures |fileName| > 0 ==> |LegacyFileDefaults(s, fileName).name| > 0 && |LegacyFileDefaults(s, fileName).bin| > 0
    ensures |s.bin| > 0 ==> LegacyFileDefaults(s, fileName).bin == s.bin
    ensures |s.bin| == 0 ==> LegacyFileDefaults(s, fileName).bin == fileName
    ensures |s.name| > 0 ==> LegacyFileDefaults(s, fileName).name == s.name
    ensures |s.name| == 0 ==> LegacyFileDefaults(s, fileName).name == LegacyFileDefaults(s, fileName).bin
    ensures LegacyFileDefaults(LegacyFileDefaults(s, fileName), fileName) == LegacyFileDefaults(s, fileName)
  {
  }

  /** `parse_file` on the file's text and name; reading the spec text is
      `fromStr`. */
  method ParseLegacyFile<E>(full: string, fileName: string, fromStr: string -> Result<LegacySpec, E>)
    returns (r: Result<(LegacySpec, string), E>)
    ensures fromStr(SplitLegacyScript(full).0).Err? ==> r == Err(fromStr(SplitLegacyScript(full).0).error)
    ensures fromStr(SplitLegacyScript(full).0).Ok? ==>
      r == Ok((LegacyFileDefaults(fromStr(SplitLegacyScript(full).0).value, fileName), SplitLegacyScript(full).1))
  {
    var t := TrimPrefix(full, SpecFile.Shebang);
    var parts := SpecFile.SchemaAndBody(t);
    var schema := Trim(parts.0);
    var body := "#!" + parts.1;
    var parsed := fromStr(schema);
    if parsed.Err? {
      return Err(parsed.error);
    }
    var spec := parsed.value;
    if |spec.bin| == 0 {
      spec := spec.(bin := fileName);
    }
    if |spec.name| == 0 {
      spec := spec.(name := spec.bin);
    }
    r := Ok((spec, body));
  }
}
