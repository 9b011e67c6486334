/** Parsing a command line against a spec (lib/src/parse.rs), first part:
    the table of flags in scope, the descent into subcommands (phase 1)
    and the word-by-word scan of the rest of the line (phase 2). The scan
    is a state machine: `Step` consumes one word, `Run` runs it to the end
    of the input, and the methods `Descend` and `ScanWords` are the loops
    of the library proved to compute them. */
module ArgvScan {
  import opened Wrappers
  import opened Strings
  import opened UsageSpec
  import opened SpecCommands

  // ---------------------------------------------------------------------
  // Values and the maps that hold them
  // ---------------------------------------------------------------------

  /** `ParseValue`. */
  datatype ParseValue = Bool(b: bool) | String(s: string) | MultiBool(bs: seq<bool>) | MultiString(ss: seq<string>)

  /** One bound value with the flag or argument it belongs to. The maps of
      the parse output are keyed by the flag or argument, whose equality
      and hash look at the name only, so an entry's key is that name. */
  datatype Bound<K> = Bound(key: K, value: ParseValue)

  /** `IndexMap::insert` on a map keyed by name: a name already present
      keeps its place and its key object and takes the new value; a new
      name goes to the end. */
  function Bind<K>(m: seq<Entry<Bound<K>>>, name: string, key: K, v: ParseValue): seq<Entry<Bound<K>>> {
    match IndexOf(m, name)
    case None => m + [Entry(name, Bound(key, v))]
    case Some(i) => m[i := Entry(name, Bound(m[i].value.key, v))]
  }

  /** After binding, the name maps to the new value, other names are
      untouched, and the map grows only for a new name. */
  lemma BindGet<K>(m: seq<Entry<Bound<K>>>, name: string, key: K, v: ParseValue, other: string)
    ensures Get(Bind(m, name, key, v), name).Some? && Get(Bind(m, name, key, v), name).value.value == v
    ensures other != name ==> Get(Bind(m, name, key, v), other) == Get(m, other)
    ensures |Bind(m, name, key, v)| == if Get(m, name).Some? then |m| else |m| + 1
  {
    var r := Bind(m, name, key, v);
    match IndexOf(m, name) {
      case None =>
        IndexOfFirst(r, name, |m|);
      case Some(j) =>
        IndexOfFirst(r, name, j);
    }
    if other != name {
      BindOther(m, name, key, v, other);
    }
  }

  lemma BindOther<K>(m: seq<Entry<Bound<K>>>, name: string, key: K, v: ParseValue, other: string)
    requires other != name
    ensures Get(Bind(m, name, key, v), other) == Get(m, other)
  {
    var r := Bind(m, name, key, v);
    assert forall i :: 0 <= i < |m| ==> (r[i].key == other <==> m[i].key == other);
    match IndexOf(m, other) {
      case None =>
        assert forall i :: 0 <= i < |r| ==> r[i].key != other;
      case Some(j) =>
        IndexOfFirst(r, other, j);
    }
  }

  /** The result of pushing onto a list value: the new map and the length of
      the list pushed onto. */
  datatype Pushed<K> = Pushed(entries: seq<Entry<Bound<K>>>, len: nat)

  /** `entry(k).or_insert_with(|| MultiString(vec![])).try_as_multi_string_mut().unwrap().push(w)`:
      `None` is the panic of `unwrap` when the name holds another kind of
      value. */
  function PushString<K>(m: seq<Entry<Bound<K>>>, name: string, key: K, w: string): (r: Option<Pushed<K>>)
    ensures r.Some? <==> Get(m, name).None? || Get(m, name).value.value.MultiString?
    ensures r.Some? ==> r.value.len == if Get(m, name).None? then 1 else |Get(m, name).value.value.ss| + 1
  {
    match Get(m, name)
    case None => Some(Pushed(Bind(m, name, key, MultiString([w])), 1))
    case Some(b) =>
      if b.value.MultiString? then Some(Pushed(Bind(m, name, key, MultiString(b.value.ss + [w])), |b.value.ss| + 1))
      else None
  }

  /** The same with `MultiBool` and `true`, for a counting flag. */
  function PushTrue<K>(m: seq<Entry<Bound<K>>>, name: string, key: K): (r: Option<seq<Entry<Bound<K>>>>)
    ensures r.Some? <==> Get(m, name).None? || Get(m, name).value.value.MultiBool?
  {
    match Get(m, name)
    case None => Some(Bind(m, name, key, MultiBool([true])))
    case Some(b) =>
      if b.value.MultiBool? then Some(Bind(m, name, key, MultiBool(b.value.bs + [true])))
      else None
  }

  /** A list value grows by exactly the pushed element. */
  lemma PushStringGet<K>(m: seq<Entry<Bound<K>>>, name: string, key: K, w: string)
    requires PushString(m, name, key, w).Some?
    ensures Get(PushString(m, name, key, w).value.entries, name).Some?
    ensures var prev := if Get(m, name).None? then [] else Get(m, name).value.value.ss;
      Get(PushString(m, name, key, w).value.entries, name).value.value == MultiString(prev + [w])
  {
    match Get(m, name)
    case None =>
      BindGet(m, name, key, MultiString([w]), name);
    case Some(b) =>
      BindGet(m, name, key, MultiString(b.value.ss + [w]), name);
  }

  // ---------------------------------------------------------------------
  // The flags in scope (`available_flags`, a `BTreeMap`)
  // ---------------------------------------------------------------------

  /** `BTreeMap::insert` on a list kept in increasing key order. */
  function Put(es: seq<Entry<Flag>>, k: string, f: Flag): (r: seq<Entry<Flag>>)
    decreases |es|
  {
    if es == [] then [Entry(k, f)]
    else if es[0].key == k then [Entry(k, f)] + es[1..]
    else if LessEq(k, es[0].key) then [Entry(k, f)] + es
    else [es[0]] + Put(es[1..], k, f)
  }

  /** A lookup in a list with a known first entry. */
  lemma GetCons<V>(e: Entry<V>, es: seq<Entry<V>>, k: string)
    ensures Get([e] + es, k) == if e.key == k then Some(e.value) else Get(es, k)
  {
    var l := [e] + es;
    assert l[1..] == es;
    if e.key != k {
      match IndexOf(es, k)
      case None =>
      case Some(i) =>
        assert l[i + 1] == es[i];
    }
  }

  /** After an insertion the key maps to the new flag and every other key
      keeps its flag. */
  lemma {:induction false} PutGet(es: seq<Entry<Flag>>, k: string, f: Flag, k2: string)
    ensures Get(Put(es, k, f), k2) == if k2 == k then Some(f) else Get(es, k2)
    decreases |es|
  {
    if es == [] {
      GetCons(Entry(k, f), [], k2);
    } else if es[0].key == k {
      GetCons(Entry(k, f), es[1..], k2);
      GetCons(es[0], es[1..], k2);
      assert es == [es[0]] + es[1..];
    } else if LessEq(k, es[0].key) {
      GetCons(Entry(k, f), es, k2);
    } else {
      PutGet(es[1..], k, f, k2);
      GetCons(es[0], Put(es[1..], k, f), k2);
      GetCons(es[0], es[1..], k2);
      assert es == [es[0]] + es[1..];
    }
  }

  /** Keys strictly increasing: the order a `BTreeMap` iterates in. */
  predicate KeySorted(es: seq<Entry<Flag>>) {
    forall i, j :: 0 <= i < j < |es| ==> LessEq(es[i].key, es[j].key) && es[i].key != es[j].key
  }

  /** `a` comes strictly before `b`. */
  predicate Before(a: string, b: string) {
    LessEq(a, b) && a != b
  }

  /** The tail of a sorted list is sorted and comes after its head. */
  lemma SortedTail(es: seq<Entry<Flag>>)
    requires KeySorted(es) && es != []
    ensures KeySorted(es[1..])
    ensures forall x :: x in es[1..] ==> Before(es[0].key, x.key)
  {
    var t := es[1..];
    assert forall i :: 0 <= i < |t| ==> t[i] == es[i + 1];
  }

  /** A head before every element of a sorted tail gives a sorted list. */
  lemma SortedCons(e: Entry<Flag>, t: seq<Entry<Flag>>)
    requires KeySorted(t) && forall x :: x in t ==> Before(e.key, x.key)
    ensures KeySorted([e] + t)
  {
    var r := [e] + t;
    forall i, j | 0 <= i < j < |r| ensures LessEq(r[i].key, r[j].key) && r[i].key != r[j].key {
      assert r[j] == t[j - 1];
      if i > 0 {
        assert r[i] == t[i - 1];
      } else {
        assert t[j - 1] in t;
      }
    }
  }

  /** An insertion keeps the keys in increasing order. */
  lemma {:induction false} PutSorted(es: seq<Entry<Flag>>, k: string, f: Flag)
    requires KeySorted(es)
    ensures KeySorted(Put(es, k, f))
    ensures forall e :: e in Put(es, k, f) ==> e == Entry(k, f) || e in es
    decreases |es|
  {
    if es != [] {
      SortedTail(es);
      var t := es[1..];
      assert es == [es[0]] + t;
      if es[0].key == k {
        SortedCons(Entry(k, f), t);
      } else if LessEq(k, es[0].key) {
        forall x | x in es ensures Before(k, x.key) {
          if x != es[0] {
            LessEqTrans(k, es[0].key, x.key);
            if k == x.key {
              LessEqAntisym(k, es[0].key);
            }
          }
        }
        SortedCons(Entry(k, f), es);
      } else {
        PutSorted(t, k, f);
        LessEqTotal(k, es[0].key);
        SortedCons(es[0], Put(t, k, f));
      }
    }
  }

  /** The keys a flag is found under: `--long` for each long name, `-s` for
      each short one, then its negation. */
  function FlagKeys(f: Flag): (r: seq<string>)
    ensures forall l :: l in f.long ==> "--" + l in r
    ensures forall c :: c in f.short ==> ['-', c] in r
    ensures f.negate.Some? ==> f.negate.value in r
    ensures forall k :: k in r ==> (exists l :: l in f.long && k == "--" + l) || (exists c :: c in f.short && k == ['-', c]) || Some(k) == f.negate
  {
    LongKeys(f.long) + ShortKeys(f.short) + (if f.negate.Some? then [f.negate.value] else [])
  }

  function LongKeys(ls: seq<string>): (r: seq<string>)
    ensures |r| == |ls| && forall i :: 0 <= i < |ls| ==> r[i] == "--" + ls[i]
  {
    if ls == [] then [] else ["--" + ls[0]] + LongKeys(ls[1..])
  }

  function ShortKeys(cs: seq<char>): (r: seq<string>)
    ensures |r| == |cs| && forall i :: 0 <= i < |cs| ==> r[i] == ['-', cs[i]]
  {
    if cs == [] then [] else [['-', cs[0]]] + ShortKeys(cs[1..])
  }

  /** The pairs `gather_flags` lists for some flags, in order. */
  function FlagPairs(fs: seq<Flag>): (r: seq<Entry<Flag>>)
    ensures forall e :: e in r ==> e.value in fs && e.key in FlagKeys(e.value)
    ensures forall f, k :: f in fs && k in FlagKeys(f) ==> exists e :: e in r && e.key == k
  {
    if fs == [] then []
    else
      var here := PairsOf(fs[0], FlagKeys(fs[0]));
      var rest := FlagPairs(fs[1..]);
      assert forall f :: f in fs ==> f == fs[0] || f in fs[1..];
      here + rest
  }

  function PairsOf(f: Flag, ks: seq<string>): (r: seq<Entry<Flag>>)
    ensures |r| == |ks| && forall i :: 0 <= i < |ks| ==> r[i] == Entry(ks[i], f)
  {
    if ks == [] then [] else [Entry(ks[0], f)] + PairsOf(f, ks[1..])
  }

  /** Inserting pairs in order (`collect`, `extend`): the last pair for a key wins. */
  function PutAll(es: seq<Entry<Flag>>, ps: seq<Entry<Flag>>): seq<Entry<Flag>>
    decreases |ps|
  {
    if ps == [] then es else PutAll(Put(es, ps[0].key, ps[0].value), ps[1..])
  }

  /** After inserting pairs, a key holds the flag of a pair or the flag it
      held before; every key of the pairs is present; the order is kept. */
  lemma {:induction false} PutAllGet(es: seq<Entry<Flag>>, ps: seq<Entry<Flag>>, k: string)
    ensures Get(PutAll(es, ps), k).Some? ==> Entry(k, Get(PutAll(es, ps), k).value) in ps || Get(PutAll(es, ps), k) == Get(es, k)
    ensures (exists e :: e in ps && e.key == k) ==> Get(PutAll(es, ps), k).Some?
    ensures (forall e :: e in ps ==> e.key != k) ==> Get(PutAll(es, ps), k) == Get(es, k)
    decreases |ps|
  {
    if ps != [] {
      var es1 := Put(es, ps[0].key, ps[0].value);
      PutAllGet(es1, ps[1..], k);
      PutGet(es, ps[0].key, ps[0].value, k);
      assert forall e :: e in ps ==> e == ps[0] || e in ps[1..];
      if (exists e :: e in ps && e.key == k) && !(exists e :: e in ps[1..] && e.key == k) {
        assert ps[0].key == k;
      }
    }
  }

  lemma {:induction false} PutAllSorted(es: seq<Entry<Flag>>, ps: seq<Entry<Flag>>)
    requires KeySorted(es)
    ensures KeySorted(PutAll(es, ps))
    decreases |ps|
  {
    if ps != [] {
      PutSorted(es, ps[0].key, ps[0].value);
      PutAllSorted(Put(es, ps[0].key, ps[0].value), ps[1..]);
    }
  }

  /** `gather_flags`: the table of a command's own flags. */
  function Gather(c: Command): seq<Entry<Flag>> {
    PutAll([], FlagPairs(c.flags))
  }

  /** `retain(|_, f| f.global)`. */
  function Retain(es: seq<Entry<Flag>>): (r: seq<Entry<Flag>>)
    ensures forall e :: e in r <==> e in es && e.value.global
  {
    if es == [] then []
    else
      assert forall e :: e in es <==> e == es[0] || e in es[1..];
      (if es[0].value.global then [es[0]] else []) + Retain(es[1..])
  }

  /** With keys unique, a key maps to a value exactly when its entry is
      in the list. */
  lemma GetIn<V>(es: seq<Entry<V>>, k: string, v: V)
    requires UniqueKeys(es)
    ensures Get(es, k) == Some(v) <==> Entry(k, v) in es
  {
    if Entry(k, v) in es {
      var i :| 0 <= i < |es| && es[i] == Entry(k, v);
      IndexOfFirst(es, k, i);
    }
  }

  /** Retaining keeps the keys in increasing order. */
  lemma {:induction false} RetainSorted(es: seq<Entry<Flag>>)
    requires KeySorted(es)
    ensures KeySorted(Retain(es))
    decreases |es|
  {
    if es != [] {
      SortedTail(es);
      RetainSorted(es[1..]);
      if es[0].value.global {
        SortedCons(es[0], Retain(es[1..]));
      }
    }
  }

  /** Retaining removes exactly the non-global flags from the lookup. */
  lemma RetainGet(es: seq<Entry<Flag>>, k: string)
    requires KeySorted(es)
    ensures KeySorted(Retain(es))
    ensures Get(Retain(es), k) == if Get(es, k).Some? && Get(es, k).value.global then Get(es, k) else None
  {
    RetainSorted(es);
    var r := Retain(es);
    match Get(es, k) {
      case Some(f) =>
        GetIn(es, k, f);
        GetIn(r, k, f);
      case None =>
        match Get(r, k) {
          case None =>
          case Some(g) =>
            GetIn(r, k, g);
            GetIn(es, k, g);
        }
    }
  }

  /** Every key of a command's table holds one of its flags under a name of
      that flag, and every name of every flag is a key. */
  lemma GatherGet(c: Command, k: string)
    ensures KeySorted(Gather(c))
    ensures Get(Gather(c), k).Some? ==> Get(Gather(c), k).value in c.flags && k in FlagKeys(Get(Gather(c), k).value)
    ensures (exists f :: f in c.flags && k in FlagKeys(f)) ==> Get(Gather(c), k).Some?
  {
    PutAllSorted([], FlagPairs(c.flags));
    PutAllGet([], FlagPairs(c.flags), k);
  }

  /** The table after descending into a subcommand: the global flags of the
      table so far, then the subcommand's own. */
  function Descended(es: seq<Entry<Flag>>, sub: Command): seq<Entry<Flag>> {
    PutAll(Retain(es), FlagPairs(sub.flags))
  }

  /** A key of the descended table holds a global flag from before or one of
      the subcommand's own flags under one of its names; every name of the
      subcommand's flags is found; the keys stay sorted. */
  lemma DescendedGet(es: seq<Entry<Flag>>, sub: Command, k: string)
    requires KeySorted(es)
    ensures KeySorted(Descended(es, sub))
    ensures Get(Descended(es, sub), k).Some? ==>
      (Get(es, k) == Get(Descended(es, sub), k) && Get(es, k).value.global) ||
      (Get(Descended(es, sub), k).value in sub.flags && k in FlagKeys(Get(Descended(es, sub), k).value))
    ensures (exists f :: f in sub.flags && k in FlagKeys(f)) ==> Get(Descended(es, sub), k).Some?
  {
    RetainGet(es, k);
    PutAllSorted(Retain(es), FlagPairs(sub.flags));
    PutAllGet(Retain(es), FlagPairs(sub.flags), k);
  }

  /** `get_flag_key`: the part of a word to look a flag up by. */
  function FlagKey(w: string): (r: string)
    ensures StartsWith(w, "--") ==> StartsWith(r, "--") && '=' !in r && StartsWith(w, r)
    ensures StartsWith(w, "--") && '=' !in w ==> r == w
    ensures !StartsWith(w, "--") ==> r == if |w| >= 2 then w[..2] else w
  {
    if StartsWith(w, "--") then
      NoEqualsInKey(w);
      match SplitOnce(w, "=")
      case None => w
      case Some((k, _)) =>
        EqualsAfterDashes(w);
        k
    else if |w| >= 2 then w[..2]
    else w
  }

  /** What comes before the first `=` holds no `=`; a word with no `=` is
      not split. */
  lemma NoEqualsInKey(w: string)
    ensures SplitOnce(w, "=").Some? ==> '=' !in SplitOnce(w, "=").value.0
    ensures SplitOnce(w, "=").None? ==> '=' !in w
  {
    var r := SplitOnce(w, "=");
    if r.Some? {
      var k := r.value.0;
      assert k + "="[..0] == k;
      forall i | 0 <= i < |k| ensures k[i] != '=' {
        assert k[i] == '=' ==> OccursAt(k, "=", i);
      }
    } else {
      forall i | 0 <= i < |w| ensures w[i] != '=' {
        assert w[i] == '=' ==> OccursAt(w, "=", i);
      }
    }
  }

  /** The `=` of a long flag word comes after its two dashes. */
  lemma EqualsAfterDashes(w: string)
    requires StartsWith(w, "--") && SplitOnce(w, "=").Some?
    ensures |SplitOnce(w, "=").value.0| >= 2 && |SplitOnce(w, "=").value.1| + 3 <= |w|
    ensures StartsWith(SplitOnce(w, "=").value.0, "--") && StartsWith(w, SplitOnce(w, "=").value.0)
  {
    var k := SplitOnce(w, "=").value.0;
    var v := SplitOnce(w, "=").value.1;
    assert w == k + "=" + v;
    assert w[|k|] == '=';
    assert w[..|k|] == k;
    assert w[0] == '-' && w[1] == '-';
    assert |k| >= 2;
    assert k[..2] == w[..2];
  }

  /** The flag key of `--name=value` is `--name`. */
  lemma FlagKeyEquals(name: string, v: string)
    requires StartsWith(name, "--") && '=' !in name
    ensures FlagKey(name + "=" + v) == name
    ensures SplitOnce(name + "=" + v, "=") == Some((name, v))
  {
    var w := name + "=" + v;
    assert w[..2] == name[..2];
    assert OccursAt(w, "=", |name|);
    NoEqualsInKey(w);
    var (k, rest) := SplitOnce(w, "=").value;
    assert k + "=" + rest == w;
    assert w[|k|] == '=';
    assert forall i :: 0 <= i < |name| ==> w[i] == name[i];
    assert w[|name|] == '=';
    assert forall i :: 0 <= i < |k| ==> k[i] == w[i];
    assert |k| == |name|;
    assert k == w[..|k|] == name;
    assert rest == w[|name| + 1..] == v;
  }

  /** A word is split only where it holds an `=`. */
  lemma SplitHasEquals(w: string)
    ensures SplitOnce(w, "=").Some? ==> '=' in w
  {
    var r := SplitOnce(w, "=");
    if r.Some? {
      assert w == r.value.0 + "=" + r.value.1;
      assert w[|r.value.0|] == '=';
    }
  }

  /** `is_help_arg`: whether a word asks for help. */
  predicate IsHelpArg(spec: Spec, w: string) {
    spec.disableHelp != Some(true) &&
    (w == "--help" || w == "-h" || w == "-?" || (spec.cmd.subcommands == [] && w == "help"))
  }

  // ---------------------------------------------------------------------
  // Phase 1: descending into subcommands
  // ---------------------------------------------------------------------

  /** The state of the subcommand search. */
  datatype Descent = Descent(
    cmd: Command,
    cmds: seq<Command>,
    available: seq<Entry<Flag>>,
    input: seq<string>,
    idx: nat,
    prefix: seq<string>,
    usedDefault: bool)

  /** Switching to a subcommand: it becomes the current command, is
      appended to the chain, and the table keeps the global flags and adds
      the subcommand's own. */
  function Enter(d: Descent, sub: Command): Descent {
    d.(cmd := sub, cmds := d.cmds + [sub], available := Descended(d.available, sub), prefix := [])
  }

  function DescentMeasure(d: Descent): nat
    requires d.idx <= |d.input|
  {
    (|d.input| - d.idx) * 2 + (if d.usedDefault then 0 else 1)
  }

  /** One step of phase 1 at the word under `idx`, or `None` where the
      search stops: a subcommand word is removed and entered; a known global
      flag (and its value word, when it takes one that is not embedded and
      the next word is not a flag) is stepped over as a prefix word; any
      other flag stops the search; any other word enters the default
      subcommand once, without consuming the word, and otherwise stops the
      search. */
  function Phase1Step(spec: Spec, d: Descent): (r: Option<Descent>)
    requires d.idx < |d.input|
    ensures r.Some? ==> r.value.idx <= |r.value.input| && DescentMeasure(r.value) < DescentMeasure(d)
  {
    var w := d.input[d.idx];
    match FindSubcommand(d.cmd, w)
    case Some(sub) =>
      Some(Enter(d, sub).(input := d.input[..d.idx] + d.input[d.idx + 1..]))
    case None =>
      if StartsWith(w, "-") then
        match Get(d.available, FlagKey(w))
        case None => None
        case Some(f) =>
          if !f.global then None
          else if f.arg.Some? && '=' !in w && d.idx + 1 < |d.input| && !StartsWith(d.input[d.idx + 1], "-") then
            Some(d.(prefix := d.prefix + [w, d.input[d.idx + 1]], idx := d.idx + 2))
          else
            Some(d.(prefix := d.prefix + [w], idx := d.idx + 1))
      else if !d.usedDefault && spec.defaultSubcommand.Some? && FindSubcommand(d.cmd, spec.defaultSubcommand.value).Some? then
        Some(Enter(d, FindSubcommand(d.cmd, spec.defaultSubcommand.value).value).(usedDefault := true))
      else None
  }

  /** Phase 1 from a given state, step by step until the input runs out or
      the search stops. */
  function Phase1(spec: Spec, d: Descent): (r: Descent)
    requires d.idx <= |d.input|
    ensures r.idx <= |r.input|
    decreases DescentMeasure(d)
  {
    if d.idx >= |d.input| then d
    else
      match Phase1Step(spec, d)
      case None => d
      case Some(e) => Phase1(spec, e)
  }

  /** `child` is one of the subcommands of `parent`. */
  predicate IsChild(parent: Command, child: Command) {
    exists i :: 0 <= i < |parent.subcommands| && parent.subcommands[i].value == child
  }

  /** The commands found are a chain of subcommands ending at the current one. */
  predicate Chain(cmds: seq<Command>, cmd: Command) {
    cmds != [] && cmds[|cmds| - 1] == cmd &&
    forall i :: 0 <= i < |cmds| - 1 ==> IsChild(cmds[i], cmds[i + 1])
  }

  /** Every flag in scope is a global flag or one of the current command's
      own, under one of its names; the keys are in order. */
  ghost predicate InScope(d: Descent) {
    Scoped(d.available, d.cmd)
  }

  ghost predicate Scoped(es: seq<Entry<Flag>>, cmd: Command) {
    KeySorted(es) &&
    forall k :: Get(es, k).Some? ==> Get(es, k).value.global || (Get(es, k).value in cmd.flags && k in FlagKeys(Get(es, k).value))
  }

  lemma FindIsChild(c: Command, w: string)
    ensures FindSubcommand(c, w).Some? ==> IsChild(c, FindSubcommand(c, w).value)
  {
    var table := Lookup(c.subcommands);
    if w in table {
      match IndexOf(c.subcommands, table[w])
      case None =>
      case Some(i) =>
    }
  }

  /** Entering a found subcommand keeps the chain and the scope. */
  lemma EnterKeeps(d: Descent, w: string)
    requires Chain(d.cmds, d.cmd) && InScope(d) && FindSubcommand(d.cmd, w).Some?
    ensures Chain(Enter(d, FindSubcommand(d.cmd, w).value).cmds, FindSubcommand(d.cmd, w).value)
    ensures InScope(Enter(d, FindSubcommand(d.cmd, w).value))
  {
    var sub := FindSubcommand(d.cmd, w).value;
    FindIsChild(d.cmd, w);
    ChainGrows(d.cmds, d.cmd, sub);
    DescendedScoped(d.available, sub);
  }

  lemma ChainGrows(cmds: seq<Command>, cmd: Command, sub: Command)
    requires Chain(cmds, cmd) && IsChild(cmd, sub)
    ensures Chain(cmds + [sub], sub)
  {
    var e := cmds + [sub];
    forall i | 0 <= i < |e| - 1 ensures IsChild(e[i], e[i + 1]) {
      if i < |cmds| - 1 {
        assert e[i] == cmds[i] && e[i + 1] == cmds[i + 1];
      }
    }
  }

  lemma DescendedScoped(es: seq<Entry<Flag>>, sub: Command)
    requires KeySorted(es)
    ensures Scoped(Descended(es, sub), sub)
  {
    var e := Descended(es, sub);
    DescendedGet(es, sub, "");
    forall k | Get(e, k).Some?
      ensures Get(e, k).value.global || (Get(e, k).value in sub.flags && k in FlagKeys(Get(e, k).value))
    {
      DescendedGet(es, sub, k);
    }
  }

  /** One step of phase 1 keeps the chain of commands and the scope of
      the flags, and the command it may add stands for the word it removes
      or is the default subcommand, entered once. */
  lemma Phase1StepKeeps(spec: Spec, d: Descent)
    requires d.idx < |d.input| && Chain(d.cmds, d.cmd) && InScope(d)
    ensures var r := Phase1Step(spec, d);
      r.Some? ==> (Chain(r.value.cmds, r.value.cmd) && InScope(r.value) && (d.usedDefault ==> r.value.usedDefault) &&
        |r.value.cmds| - |d.cmds| == (|d.input| - |r.value.input|) + (if r.value.usedDefault && !d.usedDefault then 1 else 0))
  {
    var w := d.input[d.idx];
    if FindSubcommand(d.cmd, w).Some? {
      EnterKeeps(d, w);
    } else if !StartsWith(w, "-") && !d.usedDefault && spec.defaultSubcommand.Some? && FindSubcommand(d.cmd, spec.defaultSubcommand.value).Some? {
      EnterKeeps(d, spec.defaultSubcommand.value);
    }
  }

  /** Phase 1 keeps the chain of commands and the scope of the flags, and
      every command it adds to the chain stands for one word it removed from
      the input, except the default subcommand, entered at most once without
      a word. */
  lemma {:induction false} Phase1Keeps(spec: Spec, d: Descent)
    requires d.idx <= |d.input| && Chain(d.cmds, d.cmd) && InScope(d)
    ensures Chain(Phase1(spec, d).cmds, Phase1(spec, d).cmd) && InScope(Phase1(spec, d))
    ensures d.usedDefault ==> Phase1(spec, d).usedDefault
    ensures |Phase1(spec, d).cmds| - |d.cmds| ==
      (|d.input| - |Phase1(spec, d).input|) + (if Phase1(spec, d).usedDefault && !d.usedDefault then 1 else 0)
    decreases DescentMeasure(d)
  {
    if d.idx < |d.input| {
      Phase1StepKeeps(spec, d);
      match Phase1Step(spec, d) {
        case None =>
        case Some(e) =>
          Phase1Keeps(spec, e);
      }
    }
  }

  /** The starting state of phase 1: the root command and its table. */
  function Start(spec: Spec, input: seq<string>): Descent {
    Descent(spec.cmd, [spec.cmd], Gather(spec.cmd), input, 0, [], false)
  }

  /** Phase 1 starts from a chain of one command with the table of its
      own flags. */
  lemma StartKeeps(spec: Spec, input: seq<string>)
    ensures Chain(Start(spec, input).cmds, Start(spec, input).cmd) && InScope(Start(spec, input))
  {
    var d := Start(spec, input);
    forall k | Get(d.available, k).Some?
      ensures Get(d.available, k).value in d.cmd.flags && k in FlagKeys(Get(d.available, k).value)
    {
      GatherGet(spec.cmd, k);
    }
    GatherGet(spec.cmd, "");
  }

  /** The phase 1 loop of `parse_partial_with_env`. */
  method Descend(spec: Spec, input: seq<string>) returns (r: Descent)
    ensures r == Phase1(spec, Start(spec, input))
  {
    r := Start(spec, input);
    while r.idx < |r.input|
      invariant r.idx <= |r.input|
      invariant Phase1(spec, r) == Phase1(spec, Start(spec, input))
      decreases DescentMeasure(r)
    {
      var next := DescendOnce(spec, r);
      if next.None? {
        break;
      }
      r := next.value;
    }
  }

  /** The body of the phase 1 loop, on the word under `idx`. */
  method DescendOnce(spec: Spec, d: Descent) returns (r: Option<Descent>)
    requires d.idx < |d.input|
    ensures r == Phase1Step(spec, d)
  {
    var w := d.input[d.idx];
    var found := FindSubcommand(d.cmd, w);
    if found.Some? {
      var sub := found.value;
      r := Some(d.(cmd := sub, cmds := d.cmds + [sub], available := Descended(d.available, sub), prefix := [],
                   input := d.input[..d.idx] + d.input[d.idx + 1..]));
    } else if StartsWith(w, "-") {
      var f := Get(d.available, FlagKey(w));
      if f.None? || !f.value.global {
        return None;
      }
      var idx := d.idx + 1;
      if f.value.arg.Some? && '=' !in w && idx < |d.input| && !StartsWith(d.input[idx], "-") {
        r := Some(d.(prefix := d.prefix + [w, d.input[idx]], idx := idx + 1));
      } else {
        r := Some(d.(prefix := d.prefix + [w], idx := idx));
      }
    } else {
      r := None;
      if !d.usedDefault && spec.defaultSubcommand.Some? {
        var dflt := FindSubcommand(d.cmd, spec.defaultSubcommand.value);
        if dflt.Some? {
          var sub := dflt.value;
          r := Some(d.(cmd := sub, cmds := d.cmds + [sub], available := Descended(d.available, sub), prefix := [],
                       usedDefault := true));
        }
      }
    }
  }
}
