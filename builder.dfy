/** The builders of the usage library (lib/src/spec/builder.rs): objects
    that collect a flag, an argument or a command call by call and hand it
    out with `build`. Each builder is a class over the value it builds; a
    setter changes that value as `FlagStep`, `ArgStep` or `CommandStep`
    says, and the lemmas speak of the value after any sequence of calls. */
module SpecBuilders {
  import opened Wrappers
  import opened Strings
  import opened UsageSpec
  import opened SpecArgs
  import opened SpecFlags
  import opened SpecCommands

  // ---------------------------------------------------------------------
  // Flags
  // ---------------------------------------------------------------------

  /** The setters of `SpecFlagBuilder`. */
  datatype FlagCall =
    | SetName(name: string)
    | AddShort(c: char)
    | AddShorts(cs: seq<char>)
    | AddLong(l: string)
    | AddLongs(ls: seq<string>)
    | AddDefault(v: string)
    | AddDefaults(vs: seq<string>)
    | SetHelp(text: string)
    | SetHelpLong(text: string)
    | SetHelpMd(text: string)
    | SetVar(b: bool)
    | SetVarMin(n: nat)
    | SetVarMax(n: nat)
    | SetRequired(b: bool)
    | SetGlobal(b: bool)
    | SetHide(b: bool)
    | SetCount(b: bool)
    | SetArg(a: Arg)
    | SetNegate(text: string)
    | SetEnv(text: string)
    | SetDeprecated(text: string)

  /** What one setter does to the flag being built. */
  function FlagStep(f: Flag, c: FlagCall): Flag {
    f.(name := if c.SetName? then c.name else f.name,
       short := if c.AddShort? then f.short + [c.c] else if c.AddShorts? then f.short + c.cs else f.short,
       long := if c.AddLong? then f.long + [c.l] else if c.AddLongs? then f.long + c.ls else f.long,
       default := if c.AddDefault? then f.default + [c.v] else if c.AddDefaults? then f.default + c.vs else f.default,
       required :=
         if c.SetRequired? then c.b
         else if c.AddDefault? || (c.AddDefaults? && f.default + c.vs != []) then false
         else f.required,
       help := if c.SetHelp? then Some(c.text) else f.help,
       helpLong := if c.SetHelpLong? then Some(c.text) else f.helpLong,
       helpMd := if c.SetHelpMd? then Some(c.text) else f.helpMd,
       variadic := if c.SetVar? then c.b else f.variadic,
       varMin := if c.SetVarMin? then Some(c.n) else f.varMin,
       varMax := if c.SetVarMax? then Some(c.n) else f.varMax,
       global := if c.SetGlobal? then c.b else f.global,
       hide := if c.SetHide? then c.b else f.hide,
       count := if c.SetCount? then c.b else f.count,
       arg := if c.SetArg? then Some(c.a) else f.arg,
       negate := if c.SetNegate? then Some(c.text) else f.negate,
       env := if c.SetEnv? then Some(c.text) else f.env,
       deprecated := if c.SetDeprecated? then Some(c.text) else f.deprecated)
  }


  /** The flag after `calls` on a new builder. */
  function FlagAfter(calls: seq<FlagCall>): Flag {
    if calls == [] then DefaultFlag
    else FlagStep(FlagAfter(calls[..|calls| - 1]), calls[|calls| - 1])
  }

  /** The short names the calls add, in call order. */
  function ShortsAdded(calls: seq<FlagCall>): seq<char> {
    if calls == [] then []
    else
      var c := calls[|calls| - 1];
      ShortsAdded(calls[..|calls| - 1])
        + (if c.AddShort? then [c.c] else if c.AddShorts? then c.cs else [])
  }

  /** The long names the calls add, in call order. */
  function LongsAdded(calls: seq<FlagCall>): seq<string> {
    if calls == [] then []
    else
      var c := calls[|calls| - 1];
      LongsAdded(calls[..|calls| - 1])
        + (if c.AddLong? then [c.l] else if c.AddLongs? then c.ls else [])
  }

  /** The defaults the calls add, in call order. */
  function DefaultsAdded(calls: seq<FlagCall>): seq<string> {
    if calls == [] then []
    else
      var c := calls[|calls| - 1];
      DefaultsAdded(calls[..|calls| - 1])
        + (if c.AddDefault? then [c.v] else if c.AddDefaults? then c.vs else [])
  }

  /** `short` and `shorts`, `long` and `longs`, `default_value` and
      `default_values` append, in the order of the calls. */
  lemma {:induction false} FlagListsInOrder(calls: seq<FlagCall>)
    ensures FlagAfter(calls).short == ShortsAdded(calls)
    ensures FlagAfter(calls).long == LongsAdded(calls)
    ensures FlagAfter(calls).default == DefaultsAdded(calls)
  {
    if calls != [] {
      FlagListsInOrder(calls[..|calls| - 1]);
    }
  }

  /** The name is the one given by the last `name` call. */
  lemma {:induction false} FlagNameLastWrite(calls: seq<FlagCall>, i: nat)
    requires i < |calls| && calls[i].SetName?
    requires forall k :: i < k < |calls| ==> !calls[k].SetName?
    ensures FlagAfter(calls).name == calls[i].name
  {
    if i < |calls| - 1 {
      var init := calls[..|calls| - 1];
      FlagNameLastWrite(init, i);
    }
  }

  /** The help is the one given by the last `help` call. */
  lemma {:induction false} FlagHelpLastWrite(calls: seq<FlagCall>, i: nat)
    requires i < |calls| && calls[i].SetHelp?
    requires forall k :: i < k < |calls| ==> !calls[k].SetHelp?
    ensures FlagAfter(calls).help == Some(calls[i].text)
  {
    if i < |calls| - 1 {
      var init := calls[..|calls| - 1];
      FlagHelpLastWrite(init, i);
    }
  }

  /** Giving a default makes the flag optional, and only `required` can
      make it required again. */
  lemma {:induction false} FlagNotRequiredAfterDefault(calls: seq<FlagCall>, i: nat)
    requires i < |calls| && (calls[i].AddDefault? || calls[i].AddDefaults?)
    requires FlagAfter(calls[..i + 1]).default != []
    requires forall k :: i < k < |calls| ==> !calls[k].SetRequired?
    ensures !FlagAfter(calls).required
    ensures FlagAfter(calls).default != []
  {
    if i < |calls| - 1 {
      var init := calls[..|calls| - 1];
      assert init[..i + 1] == calls[..i + 1];
      FlagNotRequiredAfterDefault(init, i);
    } else {
      assert calls[..i + 1] == calls;
    }
  }

  /** The value given by the last `required` call, or `false`. */
  function LastRequired(calls: seq<FlagCall>): bool {
    if calls == [] then false
    else if calls[|calls| - 1].SetRequired? then calls[|calls| - 1].b
    else LastRequired(calls[..|calls| - 1])
  }

  /** Without any default, requiredness is what the last `required` call
      said: empty `default_values` calls leave it alone. */
  lemma {:induction false} FlagRequiredWithoutDefaults(calls: seq<FlagCall>)
    requires FlagAfter(calls).default == []
    ensures FlagAfter(calls).required == LastRequired(calls)
  {
    if calls != [] {
      var init := calls[..|calls| - 1];
      assert FlagAfter(init).default == [] by {
        assert |FlagAfter(init).default| <= |FlagAfter(calls).default|;
      }
      FlagRequiredWithoutDefaults(init);
    }
  }

  /** What `SpecFlagBuilder::build` returns: the usage is computed first,
      then an empty name is derived from the first long, else the first
      short name. */
  function FlagBuilt(f: Flag): (r: Flag)
    ensures |f.name| > 0 ==> r.name == f.name
    ensures |f.name| == 0 ==> r.name == NameFromShortAndLong(f.short, f.long)
    ensures r.usage == FlagUsage(f)
    ensures r.(name := f.name, usage := f.usage) == f
  {
    var f1 := f.(usage := FlagUsage(f));
    if |f1.name| == 0 then
      if f1.long != [] then f1.(name := f1.long[0])
      else if f1.short != [] then f1.(name := [f1.short[0]])
      else f1
    else f1
  }

  /** `build` as it would be had the name been derived before the usage. */
  function FlagBuiltNamed(f: Flag): (r: Flag)
    ensures |f.name| > 0 ==> r.name == f.name
    ensures |f.name| == 0 ==> r.name == NameFromShortAndLong(f.short, f.long)
    ensures r.(name := f.name, usage := f.usage) == f
  {
    var f1 := if |f.name| == 0 then f.(name := NameFromShortAndLong(f.short, f.long)) else f;
    f1.(usage := FlagUsage(f1))
  }

  /** The part of a usage the first character comes from, when the name
      needs no prefix. */
  lemma JoinFirst(parts: seq<string>, sep: string)
    requires parts != [] && parts[0] != []
    ensures Join(parts, sep) != [] && Join(parts, sep)[0] == parts[0][0]
  {
    if |parts| > 1 {
      assert Join(parts, sep) == parts[0] + (sep + Join(parts[1..], sep));
    }
  }

  /** An unnamed flag whose name can be derived stores a usage that starts
      with `:`, which is not the usage of the flag `build` returns: the
      usage was computed while the name was still empty. */
  lemma BuiltUsageHasColon(f: Flag)
    requires f.name == [] && NameFromShortAndLong(f.short, f.long) != []
    ensures FlagBuilt(f).usage != [] && FlagBuilt(f).usage[0] == ':'
    ensures FlagBuilt(f).usage != FlagUsage(FlagBuilt(f))
  {
    var r := FlagBuilt(f);
    UsageStartsWith(f);
    assert r.short == f.short && r.long == f.long;
    UsageNamedFirst(r);
  }

  /** The first character of a usage comes from its first part. */
  lemma UsageStartsWith(f: Flag)
    requires NameFromShortAndLong(f.short, f.long) != f.name
    ensures FlagUsage(f) != [] && FlagUsage(f)[0] == (f.name + ":")[0]
  {
    var parts :=
      [f.name + ":"]
      + (if f.short != [] then ["-" + [f.short[0]]] else [])
      + (if f.long != [] then ["--" + f.long[0]] else []);
    JoinFirst(parts, " ");
    var out := Join(parts, " ");
    assert (if f.variadic then out + Ellipsis else out)[0] == out[0];
  }

  /** A flag whose name is the derived one and that has a short or a long
      name has a usage that starts with `-`. */
  lemma UsageNamedFirst(f: Flag)
    requires NameFromShortAndLong(f.short, f.long) == f.name
    requires f.long != [] || f.short != []
    ensures FlagUsage(f) != [] && FlagUsage(f)[0] == '-'
  {
    var parts :=
      (if f.short != [] then ["-" + [f.short[0]]] else [])
      + (if f.long != [] then ["--" + f.long[0]] else []);
    JoinFirst(parts, " ");
    var out := Join(parts, " ");
    assert (if f.variadic then out + Ellipsis else out)[0] == out[0];
  }

  /** Deriving the name first stores the usage of the flag returned, and an
      unnamed flag's usage never starts with `:`. */
  lemma BuiltNamedUsage(f: Flag)
    ensures FlagBuiltNamed(f).usage == FlagUsage(FlagBuiltNamed(f))
    ensures f.name == [] && (f.long != [] || f.short != []) ==> FlagBuiltNamed(f).usage[0] == '-'
  {
    if f.name == [] && (f.long != [] || f.short != []) {
      UsageNamedFirst(FlagBuiltNamed(f));
    }
  }

  /** `SpecFlagBuilder`. */
  class FlagBuilder {
    var inner: Flag

    /** `SpecFlagBuilder::new`. */
    constructor()
      ensures inner == DefaultFlag
    {
      inner := DefaultFlag;
    }

    /** Applies `calls` in order. */
    method Calls(calls: seq<FlagCall>)
      modifies this
      requires inner == DefaultFlag
      ensures inner == FlagAfter(calls)
    {
      for i := 0 to |calls|
        invariant inner == FlagAfter(calls[..i])
      {
        assert calls[..i + 1][..i] == calls[..i];
        Call(calls[i]);
      }
      assert calls[..|calls|] == calls;
    }

    /** Any one setter. */
    method Call(c: FlagCall)
      modifies this
      ensures inner == FlagStep(old(inner), c)
    {
      match c
      case SetName(n) => Name(n);
      case AddShort(ch) => Short(ch);
      case AddShorts(cs) => Shorts(cs);
      case AddLong(l) => Long(l);
      case AddLongs(ls) => Longs(ls);
      case AddDefault(v) => DefaultValue(v);
      case AddDefaults(vs) => DefaultValues(vs);
      case SetHelp(t) => Help(t);
      case SetHelpLong(t) => HelpLong(t);
      case SetHelpMd(t) => HelpMd(t);
      case SetVar(b) => Var(b);
      case SetVarMin(n) => VarMin(n);
      case SetVarMax(n) => VarMax(n);
      case SetRequired(b) => Required(b);
      case SetGlobal(b) => Global(b);
      case SetHide(b) => Hide(b);
      case SetCount(b) => Count(b);
      case SetArg(a) => ArgOf(a);
      case SetNegate(t) => Negate(t);
      case SetEnv(t) => Env(t);
      case SetDeprecated(t) => Deprecated(t);
    }

    method Name(n: string)
      modifies this
      ensures inner == FlagStep(old(inner), SetName(n))
    {
      inner := inner.(name := n);
    }

    method Short(c: char)
      modifies this
      ensures inner == FlagStep(old(inner), AddShort(c))
    {
      inner := inner.(short := inner.short + [c]);
    }

    method Shorts(cs: seq<char>)
      modifies this
      ensures inner == FlagStep(old(inner), AddShorts(cs))
    {
      inner := inner.(short := inner.short + cs);
    }

    method Long(l: string)
      modifies this
      ensures inner == FlagStep(old(inner), AddLong(l))
    {
      inner := inner.(long := inner.long + [l]);
    }

    method Longs(ls: seq<string>)
      modifies this
      ensures inner == FlagStep(old(inner), AddLongs(ls))
    {
      inner := inner.(long := inner.long + ls);
    }

    method DefaultValue(v: string)
      modifies this
      ensures inner == FlagStep(old(inner), AddDefault(v))
    {
      inner := inner.(default := inner.default + [v]);
      inner := inner.(required := false);
    }

    method DefaultValues(vs: seq<string>)
      modifies this
      ensures inner == FlagStep(old(inner), AddDefaults(vs))
    {
      inner := inner.(default := inner.default + vs);
      if inner.default != [] {
        inner := inner.(required := false);
      }
    }

    method Help(t: string)
      modifies this
      ensures inner == FlagStep(old(inner), SetHelp(t))
    {
      inner := inner.(help := Some(t));
    }

    method HelpLong(t: string)
      modifies this
      ensures inner == FlagStep(old(inner), SetHelpLong(t))
    {
      inner := inner.(helpLong := Some(t));
    }

    method HelpMd(t: string)
      modifies this
      ensures inner == FlagStep(old(inner), SetHelpMd(t))
    {
      inner := inner.(helpMd := Some(t));
    }

    method Var(b: bool)
      modifies this
      ensures inner == FlagStep(old(inner), SetVar(b))
    {
      inner := inner.(variadic := b);
    }

    method VarMin(n: nat)
      modifies this
      ensures inner == FlagStep(old(inner), SetVarMin(n))
    {
      inner := inner.(varMin := Some(n));
    }

    method VarMax(n: nat)
      modifies this
      ensures inner == FlagStep(old(inner), SetVarMax(n))
    {
      inner := inner.(varMax := Some(n));
    }

    method Required(b: bool)
      modifies this
      ensures inner == FlagStep(old(inner), SetRequired(b))
    {
      inner := inner.(required := b);
    }

    method Global(b: bool)
      modifies this
      ensures inner == FlagStep(old(inner), SetGlobal(b))
    {
      inner := inner.(global := b);
    }

    method Hide(b: bool)
      modifies this
      ensures inner == FlagStep(old(inner), SetHide(b))
    {
      inner := inner.(hide := b);
    }

    method Count(b: bool)
      modifies this
      ensures inner == FlagStep(old(inner), SetCount(b))
    {
      inner := inner.(count := b);
    }

    method ArgOf(a: Arg)
      modifies this
      ensures inner == FlagStep(old(inner), SetArg(a))
    {
      inner := inner.(arg := Some(a));
    }

    method Negate(t: string)
      modifies this
      ensures inner == FlagStep(old(inner), SetNegate(t))
    {
      inner := inner.(negate := Some(t));
    }

    method Env(t: string)
      modifies this
      ensures inner == FlagStep(old(inner), SetEnv(t))
    {
      inner := inner.(env := Some(t));
    }

    method Deprecated(t: string)
      modifies this
      ensures inner == FlagStep(old(inner), SetDeprecated(t))
    {
      inner := inner.(deprecated := Some(t));
    }

    /** `SpecFlagBuilder::build`. */
    method Build() returns (f: Flag)
      modifies this
      ensures f == inner && f == FlagBuilt(old(inner))
    {
      inner := inner.(usage := FlagUsage(inner));
      if |inner.name| == 0 {
        if inner.long != [] {
          inner := inner.(name := inner.long[0]);
        } else if inner.short != [] {
          inner := inner.(name := [inner.short[0]]);
        }
      }
      f := inner;
    }
  }

  // ---------------------------------------------------------------------
  // Arguments
  // ---------------------------------------------------------------------

  /** The setters of `SpecArgBuilder`. */
  datatype ArgCall =
    | ArgName(name: string)
    | ArgDefault(v: string)
    | ArgDefaults(vs: seq<string>)
    | ArgHelp(text: string)
    | ArgHelpLong(text: string)
    | ArgHelpMd(text: string)
    | ArgVar(b: bool)
    | ArgVarMin(n: nat)
    | ArgVarMax(n: nat)
    | ArgRequired(b: bool)
    | ArgHide(b: bool)
    | ArgEnv(text: string)

  /** What one setter does to the argument being built. */
  function ArgStep(a: Arg, c: ArgCall): Arg {
    a.(name := if c.ArgName? then c.name else a.name,
       default := if c.ArgDefault? then a.default + [c.v] else if c.ArgDefaults? then a.default + c.vs else a.default,
       required :=
         if c.ArgRequired? then c.b
         else if c.ArgDefault? || (c.ArgDefaults? && a.default + c.vs != []) then false
         else a.required,
       help := if c.ArgHelp? then Some(c.text) else a.help,
       helpLong := if c.ArgHelpLong? then Some(c.text) else a.helpLong,
       helpMd := if c.ArgHelpMd? then Some(c.text) else a.helpMd,
       variadic := if c.ArgVar? then c.b else a.variadic,
       varMin := if c.ArgVarMin? then Some(c.n) else a.varMin,
       varMax := if c.ArgVarMax? then Some(c.n) else a.varMax,
       hide := if c.ArgHide? then c.b else a.hide,
       env := if c.ArgEnv? then Some(c.text) else a.env)
  }


  /** The argument after `calls` on a new builder. */
  function ArgAfter(calls: seq<ArgCall>): Arg {
    if calls == [] then DefaultArg
    else ArgStep(ArgAfter(calls[..|calls| - 1]), calls[|calls| - 1])
  }

  /** The defaults the calls add, in call order. */
  function ArgDefaultsAdded(calls: seq<ArgCall>): seq<string> {
    if calls == [] then []
    else
      var c := calls[|calls| - 1];
      ArgDefaultsAdded(calls[..|calls| - 1])
        + (if c.ArgDefault? then [c.v] else if c.ArgDefaults? then c.vs else [])
  }

  /** `default_value` and `default_values` append in call order. */
  lemma {:induction false} ArgDefaultsInOrder(calls: seq<ArgCall>)
    ensures ArgAfter(calls).default == ArgDefaultsAdded(calls)
  {
    if calls != [] {
      ArgDefaultsInOrder(calls[..|calls| - 1]);
    }
  }

  /** Giving an argument a default makes it optional, and only `required`
      can make it required again. */
  lemma {:induction false} ArgNotRequiredAfterDefault(calls: seq<ArgCall>, i: nat)
    requires i < |calls| && (calls[i].ArgDefault? || calls[i].ArgDefaults?)
    requires ArgAfter(calls[..i + 1]).default != []
    requires forall k :: i < k < |calls| ==> !calls[k].ArgRequired?
    ensures !ArgAfter(calls).required
    ensures ArgAfter(calls).default != []
  {
    if i < |calls| - 1 {
      var init := calls[..|calls| - 1];
      assert init[..i + 1] == calls[..i + 1];
      ArgNotRequiredAfterDefault(init, i);
    } else {
      assert calls[..i + 1] == calls;
    }
  }

  /** What `SpecArgBuilder::build` returns: the argument with its usage. */
  function ArgBuilt(a: Arg): (r: Arg)
    ensures r.usage == ArgUsage(a) && r.(usage := a.usage) == a
  {
    a.(usage := ArgUsage(a))
  }

  /** The usage a built argument stores reads back as that argument's
      name, requiredness and variadicity. */
  lemma ArgBuiltRoundTrip(calls: seq<ArgCall>)
    requires !StartsWith(ArgAfter(calls).name, "-- ")
    ensures var a := ArgBuilt(ArgAfter(calls));
      && ArgFromStr(a.usage).name == a.name
      && ArgFromStr(a.usage).required == a.required
      && ArgFromStr(a.usage).variadic == a.variadic
  {
    ArgDoubleDashOptional(calls);
    UsageRoundTrip(ArgAfter(calls));
  }

  /** No setter of the argument builder touches the double-dash mode. */
  lemma {:induction false} ArgDoubleDashOptional(calls: seq<ArgCall>)
    ensures ArgAfter(calls).doubleDash == Optional
  {
    if calls != [] {
      ArgDoubleDashOptional(calls[..|calls| - 1]);
    }
  }

  /** `SpecArgBuilder`. */
  class ArgBuilder {
    var inner: Arg

    /** `SpecArgBuilder::new`. */
    constructor()
      ensures inner == DefaultArg
    {
      inner := DefaultArg;
    }

    /** Applies `calls` in order. */
    method Calls(calls: seq<ArgCall>)
      modifies this
      requires inner == DefaultArg
      ensures inner == ArgAfter(calls)
    {
      for i := 0 to |calls|
        invariant inner == ArgAfter(calls[..i])
      {
        assert calls[..i + 1][..i] == calls[..i];
        Call(calls[i]);
      }
      assert calls[..|calls|] == calls;
    }

    /** Any one setter. */
    method Call(c: ArgCall)
      modifies this
      ensures inner == ArgStep(old(inner), c)
    {
      match c
      case ArgName(n) => Name(n);
      case ArgDefault(v) => DefaultValue(v);
      case ArgDefaults(vs) => DefaultValues(vs);
      case ArgHelp(t) => Help(t);
      case ArgHelpLong(t) => HelpLong(t);
      case ArgHelpMd(t) => HelpMd(t);
      case ArgVar(b) => Var(b);
      case ArgVarMin(n) => VarMin(n);
      case ArgVarMax(n) => VarMax(n);
      case ArgRequired(b) => Required(b);
      case ArgHide(b) => Hide(b);
      case ArgEnv(t) => Env(t);
    }

    method Name(n: string)
      modifies this
      ensures inner == ArgStep(old(inner), ArgName(n))
    {
      inner := inner.(name := n);
    }

    method DefaultValue(v: string)
      modifies this
      ensures inner == ArgStep(old(inner), ArgDefault(v))
    {
      inner := inner.(default := inner.default + [v]);
      inner := inner.(required := false);
    }

    method DefaultValues(vs: seq<string>)
      modifies this
      ensures inner == ArgStep(old(inner), ArgDefaults(vs))
    {
      inner := inner.(default := inner.default + vs);
      if inner.default != [] {
        inner := inner.(required := false);
      }
    }

    method Help(t: string)
      modifies this
      ensures inner == ArgStep(old(inner), ArgHelp(t))
    {
      inner := inner.(help := Some(t));
    }

    method HelpLong(t: string)
      modifies this
      ensures inner == ArgStep(old(inner), ArgHelpLong(t))
    {
      inner := inner.(helpLong := Some(t));
    }

    method HelpMd(t: string)
      modifies this
      ensures inner == ArgStep(old(inner), ArgHelpMd(t))
    {
      inner := inner.(helpMd := Some(t));
    }

    method Var(b: bool)
      modifies this
      ensures inner == ArgStep(old(inner), ArgVar(b))
    {
      inner := inner.(variadic := b);
    }

    method VarMin(n: nat)
      modifies this
      ensures inner == ArgStep(old(inner), ArgVarMin(n))
    {
      inner := inner.(varMin := Some(n));
    }

    method VarMax(n: nat)
      modifies this
      ensures inner == ArgStep(old(inner), ArgVarMax(n))
    {
      inner := inner.(varMax := Some(n));
    }

    method Required(b: bool)
      modifies this
      ensures inner == ArgStep(old(inner), ArgRequired(b))
    {
      inner := inner.(required := b);
    }

    method Hide(b: bool)
      modifies this
      ensures inner == ArgStep(old(inner), ArgHide(b))
    {
      inner := inner.(hide := b);
    }

    method Env(t: string)
      modifies this
      ensures inner == ArgStep(old(inner), ArgEnv(t))
    {
      inner := inner.(env := Some(t));
    }

    /** `SpecArgBuilder::build`. */
    method Build() returns (a: Arg)
      modifies this
      ensures a == inner && a == ArgBuilt(old(inner))
    {
      inner := inner.(usage := ArgUsage(inner));
      a := inner;
    }
  }

  // ---------------------------------------------------------------------
  // Commands
  // ---------------------------------------------------------------------

  /** The setters of `SpecCommandBuilder`. */
  datatype CommandCall =
    | CmdName(name: string)
    | CmdAlias(alias: string)
    | CmdAliases(aliases: seq<string>)
    | CmdHiddenAlias(alias: string)
    | CmdHiddenAliases(aliases: seq<string>)
    | CmdFlag(flag: Flag)
    | CmdFlags(flags: seq<Flag>)
    | CmdArg(arg: Arg)
    | CmdArgs(args: seq<Arg>)
    | CmdHelp(text: string)
    | CmdHelpLong(text: string)
    | CmdHelpMd(text: string)
    | CmdHide(b: bool)
    | CmdSubcommandRequired(b: bool)
    | CmdDeprecated(text: string)

  /** What one setter does to the command being built. */
  function CommandStep(c: Command, call: CommandCall): Command {
    c.(name := if call.CmdName? then call.name else c.name,
       aliases :=
         if call.CmdAlias? then c.aliases + [call.alias]
         else if call.CmdAliases? then c.aliases + call.aliases
         else c.aliases,
       hiddenAliases :=
         if call.CmdHiddenAlias? then c.hiddenAliases + [call.alias]
         else if call.CmdHiddenAliases? then c.hiddenAliases + call.aliases
         else c.hiddenAliases,
       flags := if call.CmdFlag? then c.flags + [call.flag] else if call.CmdFlags? then c.flags + call.flags else c.flags,
       args := if call.CmdArg? then c.args + [call.arg] else if call.CmdArgs? then c.args + call.args else c.args,
       help := if call.CmdHelp? then Some(call.text) else c.help,
       helpLong := if call.CmdHelpLong? then Some(call.text) else c.helpLong,
       helpMd := if call.CmdHelpMd? then Some(call.text) else c.helpMd,
       hide := if call.CmdHide? then call.b else c.hide,
       subcommandRequired := if call.CmdSubcommandRequired? then call.b else c.subcommandRequired,
       deprecated := if call.CmdDeprecated? then Some(call.text) else c.deprecated)
  }


  /** The command after `calls` on a new builder. */
  function CommandAfter(calls: seq<CommandCall>): Command {
    if calls == [] then DefaultCommand
    else CommandStep(CommandAfter(calls[..|calls| - 1]), calls[|calls| - 1])
  }

  /** The aliases the calls add, in call order. */
  function AliasesAdded(calls: seq<CommandCall>): seq<string> {
    if calls == [] then []
    else
      var c := calls[|calls| - 1];
      AliasesAdded(calls[..|calls| - 1])
        + (if c.CmdAlias? then [c.alias] else if c.CmdAliases? then c.aliases else [])
  }

  /** The hidden aliases the calls add, in call order. */
  function HiddenAliasesAdded(calls: seq<CommandCall>): seq<string> {
    if calls == [] then []
    else
      var c := calls[|calls| - 1];
      HiddenAliasesAdded(calls[..|calls| - 1])
        + (if c.CmdHiddenAlias? then [c.alias] else if c.CmdHiddenAliases? then c.aliases else [])
  }

  /** The flags the calls add, in call order. */
  function FlagsAdded(calls: seq<CommandCall>): seq<Flag> {
    if calls == [] then []
    else
      var c := calls[|calls| - 1];
      FlagsAdded(calls[..|calls| - 1])
        + (if c.CmdFlag? then [c.flag] else if c.CmdFlags? then c.flags else [])
  }

  /** The arguments the calls add, in call order. */
  function ArgsAdded(calls: seq<CommandCall>): seq<Arg> {
    if calls == [] then []
    else
      var c := calls[|calls| - 1];
      ArgsAdded(calls[..|calls| - 1])
        + (if c.CmdArg? then [c.arg] else if c.CmdArgs? then c.args else [])
  }

  /** `alias`/`aliases`, `hidden_alias`/`hidden_aliases`, `flag`/`flags`
      and `arg`/`args` append in call order; the builder adds no
      subcommands. */
  lemma {:induction false} CommandListsInOrder(calls: seq<CommandCall>)
    ensures CommandAfter(calls).aliases == AliasesAdded(calls)
    ensures CommandAfter(calls).hiddenAliases == HiddenAliasesAdded(calls)
    ensures CommandAfter(calls).flags == FlagsAdded(calls)
    ensures CommandAfter(calls).args == ArgsAdded(calls)
    ensures CommandAfter(calls).subcommands == []
  {
    if calls != [] {
      CommandListsInOrder(calls[..|calls| - 1]);
    }
  }

  /** The name is the one given by the last `name` call. */
  lemma {:induction false} CommandNameLastWrite(calls: seq<CommandCall>, i: nat)
    requires i < |calls| && calls[i].CmdName?
    requires forall k :: i < k < |calls| ==> !calls[k].CmdName?
    ensures CommandAfter(calls).name == calls[i].name
  {
    if i < |calls| - 1 {
      CommandNameLastWrite(calls[..|calls| - 1], i);
    }
  }

  /** What `SpecCommandBuilder::build` returns: the command with its
      usage. */
  function CommandBuilt(c: Command): (r: Command)
    ensures r.usage == CmdUsage(c) && r.(usage := c.usage) == c
  {
    c.(usage := CmdUsage(c))
  }

  /** A built command's usage is computed from its own flags and
      arguments: it is the usage of the command `build` returns. */
  lemma CommandBuiltUsage(c: Command)
    ensures CommandBuilt(c).usage == CmdUsage(CommandBuilt(c))
  {
  }

  /** `SpecCommandBuilder`. */
  class CommandBuilder {
    var inner: Command

    /** `SpecCommandBuilder::new`. */
    constructor()
      ensures inner == DefaultCommand
    {
      inner := DefaultCommand;
    }

    /** Applies `calls` in order. */
    method Calls(calls: seq<CommandCall>)
      modifies this
      requires inner == DefaultCommand
      ensures inner == CommandAfter(calls)
    {
      for i := 0 to |calls|
        invariant inner == CommandAfter(calls[..i])
      {
        assert calls[..i + 1][..i] == calls[..i];
        Call(calls[i]);
      }
      assert calls[..|calls|] == calls;
    }

    /** Any one setter. */
    method Call(c: CommandCall)
      modifies this
      ensures inner == CommandStep(old(inner), c)
    {
      match c
      case CmdName(n) => Name(n);
      case CmdAlias(a) => Alias(a);
      case CmdAliases(as_) => Aliases(as_);
      case CmdHiddenAlias(a) => HiddenAlias(a);
      case CmdHiddenAliases(as_) => HiddenAliases(as_);
      case CmdFlag(f) => AddFlag(f);
      case CmdFlags(fs) => AddFlags(fs);
      case CmdArg(a) => AddArg(a);
      case CmdArgs(as_) => AddArgs(as_);
      case CmdHelp(t) => Help(t);
      case CmdHelpLong(t) => HelpLong(t);
      case CmdHelpMd(t) => HelpMd(t);
      case CmdHide(b) => Hide(b);
      case CmdSubcommandRequired(b) => SubcommandRequired(b);
      case CmdDeprecated(t) => Deprecated(t);
    }

    method Name(n: string)
      modifies this
      ensures inner == CommandStep(old(inner), CmdName(n))
    {
      inner := inner.(name := n);
    }

    method Alias(a: string)
      modifies this
      ensures inner == CommandStep(old(inner), CmdAlias(a))
    {
      inner := inner.(aliases := inner.aliases + [a]);
    }

    method Aliases(as_: seq<string>)
      modifies this
      ensures inner == CommandStep(old(inner), CmdAliases(as_))
    {
      inner := inner.(aliases := inner.aliases + as_);
    }

    method HiddenAlias(a: string)
      modifies this
      ensures inner == CommandStep(old(inner), CmdHiddenAlias(a))
    {
      inner := inner.(hiddenAliases := inner.hiddenAliases + [a]);
    }

    method HiddenAliases(as_: seq<string>)
      modifies this
      ensures inner == CommandStep(old(inner), CmdHiddenAliases(as_))
    {
      inner := inner.(hiddenAliases := inner.hiddenAliases + as_);
    }

    method AddFlag(f: Flag)
      modifies this
      ensures inner == CommandStep(old(inner), CmdFlag(f))
    {
      inner := inner.(flags := inner.flags + [f]);
    }

    method AddFlags(fs: seq<Flag>)
      modifies this
      ensures inner == CommandStep(old(inner), CmdFlags(fs))
    {
      inner := inner.(flags := inner.flags + fs);
    }

    method AddArg(a: Arg)
      modifies this
      ensures inner == CommandStep(old(inner), CmdArg(a))
    {
      inner := inner.(args := inner.args + [a]);
    }

    method AddArgs(as_: seq<Arg>)
      modifies this
      ensures inner == CommandStep(old(inner), CmdArgs(as_))
    {
      inner := inner.(args := inner.args + as_);
    }

    method Help(t: string)
      modifies this
      ensures inner == CommandStep(old(inner), CmdHelp(t))
    {
      inner := inner.(help := Some(t));
    }

    method HelpLong(t: string)
      modifies this
      ensures inner == CommandStep(old(inner), CmdHelpLong(t))
    {
      inner := inner.(helpLong := Some(t));
    }

    method HelpMd(t: string)
      modifies this
      ensures inner == CommandStep(old(inner), CmdHelpMd(t))
    {
      inner := inner.(helpMd := Some(t));
    }

    method Hide(b: bool)
      modifies this
      ensures inner == CommandStep(old(inner), CmdHide(b))
    {
      inner := inner.(hide := b);
    }

    method SubcommandRequired(b: bool)
      modifies this
      ensures inner == CommandStep(old(inner), CmdSubcommandRequired(b))
    {
      inner := inner.(subcommandRequired := b);
    }

    method Deprecated(t: string)
      modifies this
      ensures inner == CommandStep(old(inner), CmdDeprecated(t))
    {
      inner := inner.(deprecated := Some(t));
    }

    /** `SpecCommandBuilder::build`. */
    method Build() returns (c: Command)
      modifies this
      ensures c == inner && c == CommandBuilt(old(inner))
    {
      inner := inner.(usage := CmdUsage(inner));
      c := inner;
    }
  }
}
