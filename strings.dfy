/** Text helpers shared by the model: whitespace splitting, joining, trimming,
    line splitting, substring replacement, ASCII case mapping and a
    lexicographic order with a sort. Strings are sequences of characters. */
module Strings {
  import Wrappers

  /** ASCII whitespace, the part of `char::is_whitespace` / `unicode.IsSpace`
      that the model keeps. */
  predicate IsSpace(c: char) {
    c == ' ' || c == '\t' || c == '\n' || c == '\r' || c == 11 as char || c == 12 as char
  }

  predicate NoSpace(s: string) {
    forall i :: 0 <= i < |s| ==> !IsSpace(s[i])
  }

  predicate StartsWith(s: string, p: string) {
    |p| <= |s| && s[..|p|] == p
  }

  predicate EndsWith(s: string, p: string) {
    |p| <= |s| && s[|s| - |p|..] == p
  }

  /** Go's `strings.TrimSuffix`: removes one trailing `suf` if present. */
  function TrimSuffix(s: string, suf: string): (r: string)
    ensures EndsWith(s, suf) ==> r + suf == s
    ensures !EndsWith(s, suf) ==> r == s
  {
    if EndsWith(s, suf) then s[..|s| - |suf|] else s
  }

  /** Go's `strings.TrimPrefix`: removes one leading `pre` if present. */
  function TrimPrefix(s: string, pre: string): (r: string)
    ensures StartsWith(s, pre) ==> pre + r == s
    ensures !StartsWith(s, pre) ==> r == s
  {
    if StartsWith(s, pre) then s[|pre|..] else s
  }

  /** A text whose last character differs from a pattern's last character
      does not end with the pattern. */
  lemma NotEndsWithLast(s: string, p: string)
    requires |s| > 0 && |p| > 0 && s[|s| - 1] != p[|p| - 1]
    ensures !EndsWith(s, p)
  {
    assert |p| <= |s| ==> s[|s| - |p|..][|p| - 1] == s[|s| - 1];
  }

  /** Prefix and suffix tests against one character, and what trimming that
      character from both ends leaves. */
  lemma ConcatAssoc(x: string, y: string, z: string)
    ensures (x + y) + z == x + (y + z)
  {
  }

  lemma StartsWithAppend(a: string, b: string)
    ensures StartsWith(a + b, a)
  {
    assert (a + b)[..|a|] == a;
  }

  lemma EndsWithAppend(a: string, b: string)
    ensures EndsWith(a + b, b)
  {
    assert (a + b)[|a + b| - |b|..] == b;
  }

  lemma BracketedBy(t: string, open: char, close: char)
    ensures StartsWith(t, [open]) <==> |t| >= 1 && t[0] == open
    ensures EndsWith(t, [close]) <==> |t| >= 1 && t[|t| - 1] == close
    ensures open != close && StartsWith(t, [open]) && EndsWith(t, [close]) ==>
      |t| >= 2 && TrimPrefix(TrimSuffix(t, [close]), [open]) == t[1..|t| - 1]
  {
    if |t| >= 1 {
      assert t[..1] == [t[0]];
      assert t[|t| - 1..] == [t[|t| - 1]];
    }
  }

  /** `sub` occurs in `s` at position `i`. */
  predicate OccursAt(s: string, sub: string, i: int) {
    0 <= i <= |s| - |sub| && s[i..i + |sub|] == sub
  }

  /** `s.contains(sub)`. */
  predicate Contains(s: string, sub: string) {
    exists i :: 0 <= i <= |s| && OccursAt(s, sub, i)
  }

  /** A text without the first character of a pattern does not contain it. */
  lemma NoFirstCharNoContains(s: string, sub: string)
    requires sub != [] && sub[0] !in s
    ensures !Contains(s, sub)
  {
    forall i | 0 <= i <= |s| - |sub| ensures !OccursAt(s, sub, i) {
      assert s[i..i + |sub|][0] == s[i];
      assert s[i] in s;
    }
  }

  /** An occurrence after the first character is an occurrence in the tail. */
  lemma OccursInTail(s: string, sub: string, i: int)
    requires s != [] && i > 0
    ensures OccursAt(s, sub, i) <==> OccursAt(s[1..], sub, i - 1)
  {
    if 0 < i <= |s| - |sub| {
      assert s[i..i + |sub|] == s[1..][i - 1..i - 1 + |sub|];
    }
  }

  /** Length of the leading run of non-space characters. */
  function WordLen(s: string): (n: nat)
    ensures n <= |s|
    ensures forall i :: 0 <= i < n ==> !IsSpace(s[i])
    ensures n < |s| ==> IsSpace(s[n])
  {
    if s == [] || IsSpace(s[0]) then 0 else 1 + WordLen(s[1..])
  }

  /** Rust's `split_whitespace` and Go's `strings.Fields`: the maximal runs of
      non-space characters, in order. */
  function Words(s: string): (r: seq<string>)
    ensures forall k :: 0 <= k < |r| ==> r[k] != [] && NoSpace(r[k])
    decreases |s|
  {
    if s == [] then []
    else if IsSpace(s[0]) then Words(s[1..])
    else
      var n := WordLen(s);
      [s[..n]] + Words(s[n..])
  }

  /** `parts.join(sep)`. */
  function Join(parts: seq<string>, sep: string): string {
    if parts == [] then ""
    else if |parts| == 1 then parts[0]
    else parts[0] + sep + Join(parts[1..], sep)
  }

  lemma AppendAssoc<T>(a: seq<T>, b: seq<T>, c: seq<T>)
    ensures a + (b + c) == a + b + c
  {
  }

  /** Joining with one more part at the end. */
  lemma {:induction false} JoinSnoc(parts: seq<string>, x: string, sep: string)
    ensures Join(parts + [x], sep) == if parts == [] then x else Join(parts, sep) + sep + x
    decreases |parts|
  {
    if |parts| == 1 {
      assert parts + [x] == [parts[0], x];
    } else if |parts| > 1 {
      assert (parts + [x])[1..] == parts[1..] + [x];
      JoinSnoc(parts[1..], x, sep);
    }
  }

  /** A character in neither the parts nor the separator is not in the join. */
  lemma {:induction false} NotInJoin(parts: seq<string>, sep: string, c: char)
    requires c !in sep && forall k :: 0 <= k < |parts| ==> c !in parts[k]
    ensures c !in Join(parts, sep)
    decreases |parts|
  {
    if |parts| > 1 {
      NotInJoin(parts[1..], sep, c);
    }
  }

  /** Concatenation with no separator. */
  function Concat(parts: seq<string>): string {
    if parts == [] then "" else parts[0] + Concat(parts[1..])
  }

  lemma WordLenOfWord(w: string, rest: string)
    requires NoSpace(w)
    requires rest == [] || IsSpace(rest[0])
    ensures WordLen(w + rest) == |w|
  {
    if w != [] {
      assert (w + rest)[1..] == w[1..] + rest;
      WordLenOfWord(w[1..], rest);
    }
  }

  lemma WordsOfWord(w: string)
    requires w != [] && NoSpace(w)
    ensures Words(w) == [w]
  {
    WordLenOfWord(w, "");
    assert w + "" == w;
    assert w[|w|..] == [];
  }

  /** A word followed by a space and a remainder splits into that word and the
      remainder's words. */
  lemma WordsCons(w: string, rest: string)
    requires w != [] && NoSpace(w)
    ensures Words(w + " " + rest) == [w] + Words(rest)
  {
    var s := w + " " + rest;
    WordLenOfWord(w, " " + rest);
    assert s == w + (" " + rest);
    assert s[..|w|] == w;
    assert s[|w|..] == " " + rest;
    assert (" " + rest)[1..] == rest;
  }

  /** Splitting a space-joined list of words gives the words back. */
  lemma {:induction false} WordsJoin(parts: seq<string>)
    requires forall k :: 0 <= k < |parts| ==> parts[k] != [] && NoSpace(parts[k])
    ensures Words(Join(parts, " ")) == parts
  {
    if |parts| == 1 {
      WordsOfWord(parts[0]);
    } else if |parts| > 1 {
      WordsJoin(parts[1..]);
      WordsCons(parts[0], Join(parts[1..], " "));
    }
  }

  /** A leading word ends where it ends in the shorter text, or at the end
      of the text when a space follows. */
  lemma {:induction false} WordLenAppend(a: string, b: string)
    requires b == [] || IsSpace(b[0]) || WordLen(a) < |a|
    ensures WordLen(a + b) == WordLen(a)
    decreases |a|
  {
    if a != [] && !IsSpace(a[0]) {
      assert (a + b)[1..] == a[1..] + b;
      WordLenAppend(a[1..], b);
    } else if a == [] {
      assert a + b == b;
    }
  }

  /** Words on both sides of a space are the words of each side. */
  lemma {:induction false} WordsAround(a: string, sp: char, b: string)
    requires IsSpace(sp)
    ensures Words(a + [sp] + b) == Words(a) + Words(b)
    decreases |a|
  {
    var s := a + [sp] + b;
    if a == [] {
      assert s[1..] == b;
    } else if IsSpace(a[0]) {
      assert s[1..] == a[1..] + [sp] + b;
      WordsAround(a[1..], sp, b);
    } else {
      var n := WordLen(a);
      WordLenAppend(a, [sp] + b);
      assert s == a + ([sp] + b);
      assert s[..n] == a[..n];
      assert s[n..] == a[n..] + [sp] + b;
      WordsAround(a[n..], sp, b);
    }
  }

  /** Rust's `trim_start`. */
  function TrimStart(s: string): (r: string)
    ensures |r| <= |s|
    ensures r == [] || !IsSpace(r[0])
  {
    if s != [] && IsSpace(s[0]) then TrimStart(s[1..]) else s
  }

  /** `trim_start` cuts a run of spaces from the front and nothing else. */
  lemma {:induction false} TrimStartShape(s: string)
    ensures TrimStart(s) == s[|s| - |TrimStart(s)|..]
    ensures forall i :: 0 <= i < |s| - |TrimStart(s)| ==> IsSpace(s[i])
  {
    if s != [] && IsSpace(s[0]) {
      TrimStartShape(s[1..]);
      forall i | 1 <= i < |s| - |TrimStart(s)| ensures IsSpace(s[i]) {
        assert s[i] == s[1..][i - 1];
      }
    }
  }

  /** Rust's `trim_end`. */
  function TrimEnd(s: string): (r: string)
    ensures |r| <= |s|
    ensures r == [] || !IsSpace(r[|r| - 1])
  {
    if s != [] && IsSpace(s[|s| - 1]) then TrimEnd(s[..|s| - 1]) else s
  }

  /** `trim_end` cuts a run of spaces from the back and nothing else. */
  lemma {:induction false} TrimEndShape(s: string)
    ensures TrimEnd(s) == s[..|TrimEnd(s)|]
    ensures forall i :: |TrimEnd(s)| <= i < |s| ==> IsSpace(s[i])
  {
    if s != [] && IsSpace(s[|s| - 1]) {
      TrimEndShape(s[..|s| - 1]);
    }
  }

  /** Rust's `trim` and Go's `strings.TrimSpace`. */
  function Trim(s: string): string {
    TrimEnd(TrimStart(s))
  }

  /** An occurrence stays one when text is added on either side. */
  lemma OccursAtAppend(a: string, b: string, sub: string, i: int)
    requires OccursAt(a, sub, i)
    ensures OccursAt(a + b, sub, i) && OccursAt(b + a, sub, |b| + i)
  {
    assert (a + b)[i..i + |sub|] == a[i..i + |sub|];
    assert (b + a)[|b| + i..|b| + i + |sub|] == a[i..i + |sub|];
  }

  /** `trim_start` keeps an occurrence of a pattern that does not start
      with a space; it moves left by what was cut. */
  lemma TrimStartKeeps(s: string, sub: string, i: int)
    requires OccursAt(s, sub, i) && sub != [] && !IsSpace(sub[0])
    ensures OccursAt(TrimStart(s), sub, i - (|s| - |TrimStart(s)|))
  {
    var t := TrimStart(s);
    var d := |s| - |t|;
    TrimStartShape(s);
    assert s[i..i + |sub|][0] == s[i];
    assert !IsSpace(s[i]);
    assert d <= i;
    assert t == s[d..];
    assert t[i - d..i - d + |sub|] == s[d..][i - d..i - d + |sub|];
  }

  /** `trim_end` keeps an occurrence of a pattern that does not end with a
      space. */
  lemma TrimEndKeeps(s: string, sub: string, i: int)
    requires OccursAt(s, sub, i) && sub != [] && !IsSpace(sub[|sub| - 1])
    ensures OccursAt(TrimEnd(s), sub, i)
    ensures i + |sub| == |s| ==> TrimEnd(s) == s
  {
    var u := TrimEnd(s);
    TrimEndShape(s);
    assert s[i..i + |sub|][|sub| - 1] == s[i + |sub| - 1];
    assert u[i..i + |sub|] == s[i..i + |sub|];
  }

  /** Trimming keeps an occurrence of a pattern that neither starts nor
      ends with a space, and keeps it at the end if it was there. */
  lemma TrimKeeps(s: string, sub: string, i: int) returns (j: int)
    requires OccursAt(s, sub, i) && sub != [] && !IsSpace(sub[0]) && !IsSpace(sub[|sub| - 1])
    ensures OccursAt(Trim(s), sub, j)
    ensures i + |sub| == |s| ==> j + |sub| == |Trim(s)|
  {
    TrimStartKeeps(s, sub, i);
    j := i - (|s| - |TrimStart(s)|);
    TrimEndKeeps(TrimStart(s), sub, j);
  }

  /** Every part occurs in the join. */
  lemma {:induction false} JoinOccurs(parts: seq<string>, sep: string, k: nat) returns (i: int)
    requires k < |parts|
    ensures OccursAt(Join(parts, sep), parts[k], i)
    decreases |parts|
  {
    var j := Join(parts, sep);
    if |parts| == 1 {
      i := 0;
      assert j[0..|parts[0]|] == parts[0];
    } else if k == 0 {
      i := 0;
      assert j == parts[0] + (sep + Join(parts[1..], sep));
      assert j[0..|parts[0]|] == parts[0];
    } else {
      var i1 := JoinOccurs(parts[1..], sep, k - 1);
      assert j == (parts[0] + sep) + Join(parts[1..], sep);
      OccursAtAppend(Join(parts[1..], sep), parts[0] + sep, parts[k], i1);
      i := |parts[0] + sep| + i1;
    }
  }

  /** Rust's `split(c)` on a single character: always at least one piece. */
  function SplitOn(s: string, c: char): (r: seq<string>)
    ensures |r| >= 1
    ensures forall k :: 0 <= k < |r| ==> c !in r[k]
  {
    if s == [] then [""]
    else if s[0] == c then [""] + SplitOn(s[1..], c)
    else
      var rest := SplitOn(s[1..], c);
      [[s[0]] + rest[0]] + rest[1..]
  }

  /** A text without the separator is one piece. */
  lemma {:induction false} SplitOnNone(s: string, c: char)
    requires c !in s
    ensures SplitOn(s, c) == [s]
  {
    if s != [] {
      assert c !in s[1..] by {
        assert forall i :: 0 <= i < |s[1..]| ==> s[1..][i] == s[i + 1];
      }
      SplitOnNone(s[1..], c);
      assert [s[0]] + s[1..] == s;
    }
  }

  /** Joining the pieces with the separator gives the text back. */
  lemma {:induction false} SplitOnJoin(s: string, c: char)
    ensures Join(SplitOn(s, c), [c]) == s
  {
    if s != [] {
      SplitOnJoin(s[1..], c);
      var rest := SplitOn(s[1..], c);
      if s[0] == c {
        assert SplitOn(s, c)[1..] == rest;
      } else {
        var r := SplitOn(s, c);
        assert r[1..] == rest[1..];
        if |rest| > 1 {
          assert rest == [rest[0]] + rest[1..];
        }
      }
    }
  }

  /** Drops one trailing carriage return. */
  function StripCr(l: string): string {
    if l != [] && l[|l| - 1] == '\r' then l[..|l| - 1] else l
  }

  function MapStripCr(ls: seq<string>): (r: seq<string>)
    ensures |r| == |ls|
    ensures forall k :: 0 <= k < |ls| ==> r[k] == StripCr(ls[k])
  {
    if ls == [] then [] else [StripCr(ls[0])] + MapStripCr(ls[1..])
  }

  /** Rust's `str::lines`: split at `\n`, drop a final empty piece, and strip
      a `\r` that stood before a `\n`. A last line with no `\n` after it
      keeps its `\r`. */
  function Lines(s: string): (r: seq<string>)
    ensures forall k :: 0 <= k < |r| ==> '\n' !in r[k]
  {
    var parts := SplitOn(s, '\n');
    if parts[|parts| - 1] == "" then
      var r := MapStripCr(parts[..|parts| - 1]);
      assert forall k :: 0 <= k < |r| ==> r[k] == StripCr(parts[k]) && '\n' !in parts[k];
      r
    else
      var r := MapStripCr(parts[..|parts| - 1]) + [parts[|parts| - 1]];
      assert forall k :: 0 <= k < |parts| - 1 ==> r[k] == StripCr(parts[k]) && '\n' !in parts[k];
      r
  }

  /** Rust's `split_once(pat)`: the text before and after the first occurrence. */
  function SplitOnce(s: string, pat: string): (r: Wrappers.Option<(string, string)>)
    requires pat != []
    ensures r.Some? ==> r.value.0 + pat + r.value.1 == s
    ensures r.Some? ==> !Contains(r.value.0 + pat[..|pat| - 1], pat)
    ensures r.None? ==> !Contains(s, pat)
    decreases |s|
  {
    if |s| < |pat| then
      Wrappers.None
    else if s[..|pat|] == pat then
      assert s == pat + s[|pat|..];
      Wrappers.Some(("", s[|pat|..]))
    else
      match SplitOnce(s[1..], pat)
      case None =>
        NoOccurrenceCons(s, pat);
        Wrappers.None
      case Some((a, b)) =>
        FirstOccurrenceCons(s, pat, a, b);
        Wrappers.Some(([s[0]] + a, b))
  }

  lemma NoOccurrenceCons(s: string, pat: string)
    requires pat != [] && |s| >= |pat| && s[..|pat|] != pat && !Contains(s[1..], pat)
    ensures !Contains(s, pat)
  {
    forall i ensures !OccursAt(s, pat, i) {
      if i > 0 { OccursInTail(s, pat, i); }
    }
  }

  lemma FirstOccurrenceCons(s: string, pat: string, a: string, b: string)
    requires pat != [] && |s| >= |pat| && s[..|pat|] != pat
    requires a + pat + b == s[1..] && !Contains(a + pat[..|pat| - 1], pat)
    ensures [s[0]] + a + pat + b == s
    ensures !Contains([s[0]] + a + pat[..|pat| - 1], pat)
  {
    assert [s[0]] + a + pat + b == [s[0]] + (a + pat + b);
    var t := [s[0]] + a + pat[..|pat| - 1];
    forall i ensures !OccursAt(t, pat, i) {
      if i == 0 {
        if |t| >= |pat| { assert t[..|pat|] == s[..|pat|]; }
      } else if i > 0 {
        assert t[1..] == a + pat[..|pat| - 1];
        OccursInTail(t, pat, i);
      }
    }
  }


  /** Rust's `str::replace` / Go's `strings.ReplaceAll` for a non-empty
      pattern: every non-overlapping occurrence, left to right. */
  function Replace(s: string, pat: string, rep: string): string
    requires pat != []
    decreases |s|
  {
    if |s| < |pat| then s
    else if s[..|pat|] == pat then rep + Replace(s[|pat|..], pat, rep)
    else [s[0]] + Replace(s[1..], pat, rep)
  }

  /** With a one-character pattern, replacement works piece by piece. */
  lemma {:induction false} ReplaceCharPatternAppend(a: string, b: string, c: char, rep: string)
    ensures Replace(a + b, [c], rep) == Replace(a, [c], rep) + Replace(b, [c], rep)
    decreases |a|
  {
    if a != [] {
      assert (a + b)[1..] == a[1..] + b;
      assert (a + b)[..1] == a[..1];
      ReplaceCharPatternAppend(a[1..], b, c, rep);
    } else {
      assert a + b == b;
    }
  }

  /** Text without the pattern is left unchanged. */
  lemma {:induction false} ReplaceAbsent(s: string, pat: string, rep: string)
    requires pat != [] && !Contains(s, pat)
    ensures Replace(s, pat, rep) == s
    decreases |s|
  {
    if |s| >= |pat| {
      assert !OccursAt(s, pat, 0);
      assert !Contains(s[1..], pat) by {
        forall i ensures !OccursAt(s[1..], pat, i) {
          if i >= 0 { OccursInTail(s, pat, i + 1); }
        }
      }
      ReplaceAbsent(s[1..], pat, rep);
    }
  }

  /** Replaces every occurrence of one character by another. */
  function ReplaceChar(s: string, from: char, to: char): (r: string)
    ensures |r| == |s|
    ensures forall i :: 0 <= i < |s| ==> r[i] == (if s[i] == from then to else s[i])
  {
    if s == [] then [] else [if s[0] == from then to else s[0]] + ReplaceChar(s[1..], from, to)
  }

  function UpperChar(c: char): char {
    if 'a' <= c <= 'z' then (c as int - 32) as char else c
  }

  function LowerChar(c: char): char {
    if 'A' <= c <= 'Z' then (c as int + 32) as char else c
  }

  /** ASCII upper-casing (the model's `to_uppercase` / `strings.ToUpper`). */
  function ToUpper(s: string): (r: string)
    ensures |r| == |s|
    ensures forall i :: 0 <= i < |s| ==> r[i] == UpperChar(s[i])
  {
    if s == [] then [] else [UpperChar(s[0])] + ToUpper(s[1..])
  }

  /** ASCII lower-casing (the model's `to_lowercase` / `to_ascii_lowercase`). */
  function ToLower(s: string): (r: string)
    ensures |r| == |s|
    ensures forall i :: 0 <= i < |s| ==> r[i] == LowerChar(s[i])
  {
    if s == [] then [] else [LowerChar(s[0])] + ToLower(s[1..])
  }

  /** Removes every occurrence of a character. */
  function RemoveChar(s: string, c: char): (r: string)
    ensures c !in r
    ensures forall x :: x in r ==> x in s
  {
    if s == [] then [] else (if s[0] == c then [] else [s[0]]) + RemoveChar(s[1..], c)
  }

  /** Lexicographic order by character code, which is Rust's `Ord` on `str`. */
  predicate LessEq(a: string, b: string) {
    a == [] || (b != [] && (a[0] < b[0] || (a[0] == b[0] && LessEq(a[1..], b[1..]))))
  }

  lemma {:induction false} LessEqTotal(a: string, b: string)
    ensures LessEq(a, b) || LessEq(b, a)
  {
    if a != [] && b != [] && a[0] == b[0] {
      LessEqTotal(a[1..], b[1..]);
    }
  }

  lemma {:induction false} LessEqAntisym(a: string, b: string)
    requires LessEq(a, b) && LessEq(b, a)
    ensures a == b
  {
    if a != [] && b != [] {
      LessEqAntisym(a[1..], b[1..]);
      assert a == [a[0]] + a[1..] && b == [b[0]] + b[1..];
    }
  }

  lemma {:induction false} LessEqTrans(a: string, b: string, c: string)
    requires LessEq(a, b) && LessEq(b, c)
    ensures LessEq(a, c)
  {
    if a != [] && b != [] && c != [] && a[0] == b[0] && b[0] == c[0] {
      LessEqTrans(a[1..], b[1..], c[1..]);
    }
  }

  predicate Sorted(s: seq<string>) {
    forall i, j :: 0 <= i < j < |s| ==> LessEq(s[i], s[j])
  }

  function Insert(x: string, s: seq<string>): (r: seq<string>)
    requires Sorted(s)
    ensures Sorted(r)
    ensures multiset(r) == multiset(s) + multiset{x}
  {
    if s == [] then [x]
    else if LessEq(x, s[0]) then
      InsertFront(x, s);
      [x] + s
    else
      var t := Insert(x, s[1..]);
      InsertBehind(x, s, t);
      [s[0]] + t
  }

  lemma InsertFront(x: string, s: seq<string>)
    requires Sorted(s) && s != [] && LessEq(x, s[0])
    ensures Sorted([x] + s)
    ensures multiset([x] + s) == multiset(s) + multiset{x}
  {
    forall j | 0 <= j < |s| ensures LessEq(x, s[j]) {
      if j > 0 { LessEqTrans(x, s[0], s[j]); }
    }
  }

  lemma InsertBehind(x: string, s: seq<string>, t: seq<string>)
    requires Sorted(s) && s != [] && !LessEq(x, s[0])
    requires Sorted(t) && multiset(t) == multiset(s[1..]) + multiset{x}
    ensures Sorted([s[0]] + t)
    ensures multiset([s[0]] + t) == multiset(s) + multiset{x}
  {
    LessEqTotal(x, s[0]);
    assert s == [s[0]] + s[1..];
    forall j | 0 <= j < |t| ensures LessEq(s[0], t[j]) {
      assert t[j] in multiset(t);
      if t[j] != x {
        assert t[j] in multiset(s[1..]);
        var k :| 0 <= k < |s[1..]| && s[1..][k] == t[j];
        assert s[k + 1] == t[j];
      }
    }
  }

  /** Rust's `sort` / itertools' `sorted` on strings. */
  function Sort(s: seq<string>): (r: seq<string>)
    ensures Sorted(r)
    ensures multiset(r) == multiset(s)
  {
    if s == [] then []
    else
      assert s == [s[0]] + s[1..];
      Insert(s[0], Sort(s[1..]))
  }

  /** itertools' `unique`: the first occurrence of each element, in order. */
  function Unique(s: seq<string>): (r: seq<string>)
    ensures forall x :: x in r <==> x in s
    ensures forall i, j :: 0 <= i < j < |r| ==> r[i] != r[j]
  {
    UniqueFrom(s, {})
  }

  function UniqueFrom(s: seq<string>, seen: set<string>): (r: seq<string>)
    ensures forall x :: x in r <==> x in s && x !in seen
    ensures forall i, j :: 0 <= i < j < |r| ==> r[i] != r[j]
  {
    if s == [] then []
    else if s[0] in seen then UniqueFrom(s[1..], seen)
    else
      var t := UniqueFrom(s[1..], seen + {s[0]});
      assert forall x :: x in [s[0]] + t <==> x in s && x !in seen by {
        assert s == [s[0]] + s[1..];
      }
      [s[0]] + t
  }

  /** Each text with a fixed text in front (`format!("--{c}")`). */
  function Prefixed(p: string, xs: seq<string>): (r: seq<string>)
    ensures |r| == |xs|
    ensures forall i :: 0 <= i < |xs| ==> r[i] == p + xs[i]
  {
    if xs == [] then [] else Prefixed(p, xs[..|xs| - 1]) + [p + xs[|xs| - 1]]
  }

  /** Characters as one-character texts. */
  function Chars(cs: seq<char>): (r: seq<string>)
    ensures |r| == |cs|
    ensures forall i :: 0 <= i < |cs| ==> r[i] == [cs[i]]
  {
    if cs == [] then [] else Chars(cs[..|cs| - 1]) + [[cs[|cs| - 1]]]
  }

  /** Strings of `n` spaces. */
  function Spaces(n: nat): (r: string)
    ensures |r| == n
    ensures forall i :: 0 <= i < n ==> r[i] == ' '
  {
    if n == 0 then "" else " " + Spaces(n - 1)
  }

  predicate IsDigit(c: char) {
    '0' <= c <= '9'
  }

  /** `usize::to_string`: the decimal digits of a number, most significant first. */
  function NatToString(n: nat): (r: string)
    ensures r != [] && forall i :: 0 <= i < |r| ==> IsDigit(r[i])
    decreases n
  {
    if n < 10 then [('0' as int + n) as char]
    else NatToString(n / 10) + [('0' as int + n % 10) as char]
  }

  /** The number a string of decimal digits stands for. */
  function DigitsValue(s: string): nat
    requires forall i :: 0 <= i < |s| ==> IsDigit(s[i])
  {
    if s == [] then 0
    else
      assert IsDigit(s[|s| - 1]);
      DigitsValue(s[..|s| - 1]) * 10 + (s[|s| - 1] as int - '0' as int)
  }

  /** Reading the digits back gives the number. */
  lemma {:induction false} NatToStringValue(n: nat)
    ensures DigitsValue(NatToString(n)) == n
    decreases n
  {
    var r := NatToString(n);
    if n >= 10 {
      NatToStringValue(n / 10);
      assert r[..|r| - 1] == NatToString(n / 10);
    } else {
      assert r[..|r| - 1] == [];
    }
  }

}
