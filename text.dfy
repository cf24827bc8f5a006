/** The part of Go's `strings` and `strconv` packages that the chat server
    relies on, over strings of Unicode code points (one `char` per rune). */
module Text {

  datatype Option<T> = None | Some(value: T)

  /** Go's `unicode.IsSpace`: the ASCII spaces (tab to carriage return and
      the blank), NEL, NBSP and the Unicode White_Space code points above Latin-1. */
  predicate IsSpace(c: char) {
    || c == ' ' || ('\t' <= c <= '\r') || c == '\U{0085}' || c == '\U{00A0}' || c == '\U{1680}'
    || ('\U{2000}' <= c <= '\U{200A}')
    || c == '\U{2028}' || c == '\U{2029}' || c == '\U{202F}' || c == '\U{205F}' || c == '\U{3000}'
  }

  /** Every code point of `s` satisfies `f`. */
  predicate AllOf(s: string, f: char -> bool) {
    forall i :: 0 <= i < |s| ==> f(s[i])
  }

  /** No code point of `s` satisfies `f`. */
  predicate NoneOf(s: string, f: char -> bool) {
    forall i :: 0 <= i < |s| ==> !f(s[i])
  }

  /** Joining two strings free of `f` gives one free of `f`. */
  lemma NoneOfConcat(a: string, b: string, f: char -> bool)
    requires NoneOf(a, f) && NoneOf(b, f)
    ensures NoneOf(a + b, f)
  {
    forall i | 0 <= i < |a + b|
      ensures !f((a + b)[i])
    {
      if i >= |a| {
        assert (a + b)[i] == b[i - |a|];
      }
    }
  }

  /** Go's `strings.TrimLeftFunc`: drops the longest prefix whose code points satisfy `drop`. */
  function TrimLeftFunc(s: string, drop: char -> bool): (r: string)
    ensures |r| <= |s| && r == s[|s| - |r|..]
    ensures forall i :: 0 <= i < |s| - |r| ==> drop(s[i])
    ensures r == [] || !drop(r[0])
  {
    if s != [] && drop(s[0]) then TrimLeftFunc(s[1..], drop) else s
  }

  /** Go's `strings.TrimRightFunc`: drops the longest suffix whose code points satisfy `drop`. */
  function TrimRightFunc(s: string, drop: char -> bool): (r: string)
    ensures |r| <= |s| && r == s[..|r|]
    ensures forall i :: |r| <= i < |s| ==> drop(s[i])
    ensures r == [] || !drop(r[|r| - 1])
  {
    if s != [] && drop(s[|s| - 1]) then TrimRightFunc(s[..|s| - 1], drop) else s
  }

  /** Go's `strings.TrimFunc`. */
  function TrimFunc(s: string, drop: char -> bool): (r: string)
  {
    TrimRightFunc(TrimLeftFunc(s, drop), drop)
  }

  /** Go's `strings.TrimSpace`: what is kept neither starts nor ends with
      white space. */
  function TrimSpace(s: string): (r: string)
    ensures |r| <= |s|
    ensures r == [] || (!IsSpace(r[0]) && !IsSpace(r[|r| - 1]))
  {
    TrimFuncEnds(s, IsSpace);
    TrimFunc(s, IsSpace)
  }

  /** `r` is the slice of `s` from `lo` on, everything cut from `s` on
      either side of it satisfies `drop`, and neither end of `r` does. */
  predicate TrimmedTo(s: string, lo: int, r: string, drop: char -> bool) {
    && 0 <= lo && lo + |r| <= |s| && r == s[lo..][..|r|]
    && (forall i :: 0 <= i < lo ==> drop(s[i]))
    && (forall i :: lo + |r| <= i < |s| ==> drop(s[i]))
    && (r == [] || (!drop(r[0]) && !drop(r[|r| - 1])))
  }

  /** A prefix cut from `s` and then a suffix cut from what is left leave
      a slice of `s` whose cut-off code points all satisfy `drop`; when the
      first cut stops at a kept code point and the second one too, the
      slice neither starts nor ends with a dropped one. */
  lemma CutBothEnds(s: string, l: string, r: string, drop: char -> bool)
    requires |l| <= |s| && l == s[|s| - |l|..]
    requires |r| <= |l| && r == l[..|r|]
    requires forall i :: |r| <= i < |l| ==> drop(l[i])
    requires l == [] || !drop(l[0])
    requires r == [] || !drop(r[|r| - 1])
    requires forall i :: 0 <= i < |s| - |l| ==> drop(s[i])
    ensures TrimmedTo(s, |s| - |l|, r, drop)
  {
    var lo := |s| - |l|;
    forall i | lo + |r| <= i < |s|
      ensures drop(s[i])
    {
      assert s[i] == l[i - lo];
    }
    if r != [] {
      assert r[0] == l[0];
    }
  }

  /** Neither end of what TrimFunc keeps satisfies `drop`. */
  lemma TrimFuncEnds(s: string, drop: char -> bool)
    ensures var r := TrimFunc(s, drop);
      r == [] || (!drop(r[0]) && !drop(r[|r| - 1]))
  {
    var l := TrimLeftFunc(s, drop);
    var r := TrimRightFunc(l, drop);
    if r != [] {
      assert r[0] == l[0];
    }
  }

  /** What TrimFunc keeps is the slice of `s` left once the longest prefix
      and then the longest suffix of code points satisfying `drop` are cut:
      everything cut satisfies `drop`, and neither end of what is kept does. */
  lemma TrimFuncSlice(s: string, drop: char -> bool)
    ensures TrimmedTo(s, |s| - |TrimLeftFunc(s, drop)|, TrimFunc(s, drop), drop)
  {
    TrimFuncCuts(s, drop);
    CutBothEnds(s, TrimLeftFunc(s, drop), TrimFunc(s, drop), drop);
  }

  /** TrimLeftFunc cuts a prefix of `s` and TrimFunc then a suffix of what
      is left; the code points cut satisfy `drop` and the ends kept do not. */
  lemma TrimFuncCuts(s: string, drop: char -> bool)
    ensures var l, r := TrimLeftFunc(s, drop), TrimFunc(s, drop);
      && |l| <= |s| && l == s[|s| - |l|..]
      && (forall i :: 0 <= i < |s| - |l| ==> drop(s[i]))
      && (l == [] || !drop(l[0]))
      && |r| <= |l| && r == l[..|r|]
      && (forall i :: |r| <= i < |l| ==> drop(l[i]))
      && (r == [] || !drop(r[|r| - 1]))
  {
  }

  /** Trimming twice cuts nothing more. */
  lemma TrimFuncIdempotent(s: string, drop: char -> bool)
    ensures TrimFunc(TrimFunc(s, drop), drop) == TrimFunc(s, drop)
  {
    var r := TrimFunc(s, drop);
    TrimFuncEnds(s, drop);
    assert TrimLeftFunc(r, drop) == r;
    assert TrimRightFunc(r, drop) == r;
  }

  /** Go's `unicode.ToLower`, restricted to ASCII. */
  function LowerChar(c: char): (d: char)
    ensures 'A' <= c <= 'Z' ==> d as int == c as int + 32
    ensures !('A' <= c <= 'Z') ==> d == c
  {
    if 'A' <= c <= 'Z' then (c as int + 32) as char else c
  }

  /** Go's `strings.ToLower` on ASCII letters. */
  function ToLower(s: string): (r: string)
    ensures |r| == |s|
    ensures forall i :: 0 <= i < |s| ==> r[i] == LowerChar(s[i])
  {
    seq(|s|, i requires 0 <= i < |s| => LowerChar(s[i]))
  }

  /** Go's `strings.Count` for a one-rune separator. */
  function Count(s: string, c: char): (n: nat)
    ensures n <= |s|
    ensures n == 0 <==> c !in s
  {
    if s == [] then 0 else (if s[0] == c then 1 else 0) + Count(s[1..], c)
  }

  /** Go's `strings.Index` for a one-rune needle: the first position of `c`, or -1. */
  function Index(s: string, c: char): (k: int)
    ensures k == -1 <==> c !in s
    ensures k != -1 ==> 0 <= k < |s| && s[k] == c && c !in s[..k]
  {
    if s == [] then -1
    else if s[0] == c then 0
    else
      var k := Index(s[1..], c);
      if k == -1 then -1 else k + 1
  }

  /** The inverse of Split: the parts glued back with the separator. */
  function Join(parts: seq<string>, sep: char): string
    requires |parts| >= 1
  {
    if |parts| == 1 then parts[0] else parts[0] + [sep] + Join(parts[1..], sep)
  }

  /** Go's `strings.Split` for a one-rune separator. */
  function Split(s: string, sep: char): (parts: seq<string>)
    ensures |parts| == Count(s, sep) + 1
    ensures forall k :: 0 <= k < |parts| ==> sep !in parts[k]
    ensures Join(parts, sep) == s
  {
    if s == [] then [[]]
    else
      var rest := Split(s[1..], sep);
      if s[0] == sep then
        [[]] + rest
      else
        assert s == [s[0]] + s[1..];
        [[s[0]] + rest[0]] + rest[1..]
  }

  /** The first part of a split is the text before the first separator. */
  lemma {:induction false} SplitHead(s: string, sep: char)
    ensures Split(s, sep)[0] == if sep in s then s[..Index(s, sep)] else s
  {
    if s != [] && s[0] != sep {
      SplitHead(s[1..], sep);
    }
  }

  /** The second part of a split, when there is one, is the text between
      the first and the second separator. */
  lemma {:induction false} SplitSecond(s: string, sep: char)
    requires sep in s
    ensures var i := Index(s, sep);
      |Split(s, sep)| >= 2 && Split(s, sep)[1] == Split(s[i + 1..], sep)[0]
  {
    if s[0] != sep {
      var t, i := s[1..], Index(s, sep);
      IndexTail(s, sep);
      SplitSecond(t, sep);
      SplitTail(s, sep);
      assert Split(s, sep)[1] == Split(s, sep)[1..][0] == Split(t, sep)[1..][0];
      assert Split(t, sep)[1] == Split(s[i + 1..], sep)[0];
    }
  }

  /** Past a first code point that is not the separator, the first
      separator is one place further on, and what follows it is the same. */
  lemma IndexTail(s: string, sep: char)
    requires sep in s && s[0] != sep
    ensures sep in s[1..] && Index(s, sep) == Index(s[1..], sep) + 1
    ensures s[1..][Index(s[1..], sep) + 1..] == s[Index(s, sep) + 1..]
  {
    assert s == [s[0]] + s[1..];
  }

  /** Past a first code point that is not the separator, the later parts
      of a split are those of the rest. */
  lemma SplitTail(s: string, sep: char)
    requires s != [] && s[0] != sep
    ensures Split(s, sep)[1..] == Split(s[1..], sep)[1..]
  {
  }

  /** The code points of `s` that do not satisfy `f`, in order. */
  function Keep(s: string, f: char -> bool): (r: string)
    ensures NoneOf(r, f)
  {
    if s == [] then [] else (if f(s[0]) then [] else [s[0]]) + Keep(s[1..], f)
  }

  lemma {:induction false} KeepAppend(a: string, b: string, f: char -> bool)
    ensures Keep(a + b, f) == Keep(a, f) + Keep(b, f)
  {
    if a != [] {
      var head := if f(a[0]) then [] else [a[0]];
      assert (a + b)[0] == a[0] && (a + b)[1..] == a[1..] + b;
      KeepAppend(a[1..], b, f);
      calc {
        Keep(a + b, f);
        head + Keep(a[1..] + b, f);
        head + (Keep(a[1..], f) + Keep(b, f));
        (head + Keep(a[1..], f)) + Keep(b, f);
      }
    } else {
      assert a + b == b;
    }
  }

  lemma {:induction false} KeepNone(s: string, f: char -> bool)
    requires AllOf(s, f)
    ensures Keep(s, f) == []
  {
    if s != [] { KeepNone(s[1..], f); }
  }

  lemma {:induction false} KeepAll(s: string, f: char -> bool)
    requires NoneOf(s, f)
    ensures Keep(s, f) == s
  {
    if s != [] { KeepAll(s[1..], f); }
  }

  /** A string is a prefix of itself followed by anything. */
  lemma PrefixOfAppend(a: string, b: string)
    ensures a <= a + b
  {
    assert (a + b)[..|a|] == a;
  }

  /** A prefix of a prefix is a prefix. */
  lemma PrefixTransitive(a: string, b: string, c: string)
    requires a <= b && b <= c
    ensures a <= c
  {
    assert c[..|a|] == b[..|a|];
  }

  function Concat(parts: seq<string>): string {
    if parts == [] then [] else parts[0] + Concat(parts[1..])
  }

  /** The longest prefix of `s` none of whose code points satisfies `f`. */
  function Word(s: string, f: char -> bool): (w: string)
    ensures w <= s && NoneOf(w, f)
    ensures |w| < |s| ==> f(s[|w|])
    ensures s != [] && !f(s[0]) ==> |w| > 0
  {
    if s == [] || f(s[0]) then [] else [s[0]] + Word(s[1..], f)
  }

  /** A prefix cut by `f` and a word in front of `rest` keep exactly the word. */
  lemma KeepSplit(blank: string, w: string, rest: string, f: char -> bool)
    requires AllOf(blank, f) && NoneOf(w, f)
    ensures Keep(blank + (w + rest), f) == w + Keep(rest, f)
  {
    KeepAppend(blank, w + rest, f);
    KeepAppend(w, rest, f);
    KeepNone(blank, f);
    KeepAll(w, f);
  }

  lemma SliceSplit(s: string, k: nat)
    requires k <= |s|
    ensures s == s[..k] + s[k..]
  {
  }

  /** Cutting `s` into its `f`-prefix, the first word after it and the
      rest: the pieces glue back to `s`, and the non-`f` code points of
      `s` are the word followed by those of the rest. */
  lemma WordSplit(s: string, f: char -> bool)
    ensures var t := TrimLeftFunc(s, f);
      var w := Word(t, f);
      Keep(s, f) == w + Keep(t[|w|..], f)
  {
    var t := TrimLeftFunc(s, f);
    var w := Word(t, f);
    TrimmedPrefix(s, f);
    WordPrefix(t, f);
    KeepSplit(s[..|s| - |t|], w, t[|w|..], f);
  }

  /** When TrimLeftFunc cuts everything, every code point satisfies `f`. */
  lemma AllCut(s: string, f: char -> bool)
    requires TrimLeftFunc(s, f) == []
    ensures AllOf(s, f)
  {
    TrimmedPrefix(s, f);
    assert s[..|s|] == s;
  }

  /** `s` cut into its leading `f` code points, the first word after them
      and the rest, which starts with an `f` code point if anything. */
  lemma FirstRun(s: string, f: char -> bool)
    requires TrimLeftFunc(s, f) != []
    ensures var t := TrimLeftFunc(s, f);
      var w := Word(t, f);
      && AllOf(s[..|s| - |t|], f)
      && s == s[..|s| - |t|] + (w + t[|w|..])
      && w != [] && (t[|w|..] == [] || f(t[|w|..][0]))
  {
    var t := TrimLeftFunc(s, f);
    var blank := s[..|s| - |t|];
    TrimmedPrefix(s, f);
    FirstWord(t, f);
  }

  /** A string that starts outside `f` is its first word followed by a
      rest that starts with an `f` code point if anything. */
  lemma FirstWord(t: string, f: char -> bool)
    requires t != [] && !f(t[0])
    ensures var w := Word(t, f);
      t == w + t[|w|..] && w != [] && (t[|w|..] == [] || f(t[|w|..][0]))
  {
    var w := Word(t, f);
    WordPrefix(t, f);
    if |w| < |t| {
      assert t[|w|..][0] == t[|w|];
    }
  }

  /** What TrimLeftFunc cuts off all satisfies `drop`. */
  lemma TrimmedPrefix(s: string, drop: char -> bool)
    ensures var t := TrimLeftFunc(s, drop);
      AllOf(s[..|s| - |t|], drop) && s == s[..|s| - |t|] + t
  {
    var t := TrimLeftFunc(s, drop);
    var lo := |s| - |t|;
    var blank := s[..lo];
    forall i | 0 <= i < |blank|
      ensures drop(blank[i])
    {
      assert blank[i] == s[i];
    }
    SliceSplit(s, lo);
  }

  lemma WordPrefix(t: string, f: char -> bool)
    ensures t == Word(t, f) + t[|Word(t, f)|..]
  {
    var w := Word(t, f);
    assert t[..|w|] == w;
    SliceSplit(t, |w|);
  }

  /** The fields `fs` with the gaps around and between them glued back:
      `gaps[0] + fs[0] + gaps[1] + ... + fs[n - 1] + gaps[n]`. */
  function Interleave(gaps: seq<string>, fs: seq<string>): string
    requires |gaps| == |fs| + 1
  {
    if fs == [] then gaps[0] else gaps[0] + fs[0] + Interleave(gaps[1..], fs[1..])
  }

  /** Gaps that separate maximal runs: they hold only code points that
      satisfy `f`, and every gap between two fields holds at least one. */
  predicate Separators(gaps: seq<string>, f: char -> bool) {
    && (forall k :: 0 <= k < |gaps| ==> AllOf(gaps[k], f))
    && (forall k :: 0 < k < |gaps| - 1 ==> gaps[k] != [])
  }

  /** A leading gap and a field put in front of a separated string keep
      it separated, provided the string starts with a separator. */
  lemma SeparatorsCons(blank: string, w: string, rest: string, tail: seq<string>, g: seq<string>, f: char -> bool)
    requires AllOf(blank, f) && w != [] && NoneOf(w, f)
    requires rest == [] || f(rest[0])
    requires forall v :: v in tail ==> |v| > 0 && NoneOf(v, f)
    requires |g| == |tail| + 1 && Separators(g, f) && Interleave(g, tail) == rest
    ensures |[blank] + g| == |[w] + tail| + 1
    ensures Separators([blank] + g, f)
    ensures Interleave([blank] + g, [w] + tail) == blank + w + rest
  {
    if tail != [] {
      assert tail[0] in tail;
      FirstGapNonEmpty(rest, tail, g, f);
    }
    SeparatorsPrepend(blank, g, f);
    assert Interleave([blank] + g, [w] + tail) == blank + w + rest by {
      assert ([blank] + g)[1..] == g && ([w] + tail)[1..] == tail;
    }
  }

  /** A gap put in front of separating gaps keeps them separating, when
      their first gap is no longer the last one and is non-empty. */
  lemma SeparatorsPrepend(blank: string, g: seq<string>, f: char -> bool)
    requires AllOf(blank, f) && Separators(g, f)
    requires |g| > 1 ==> g[0] != []
    ensures Separators([blank] + g, f)
  {
    assert forall k :: 0 < k < |g| + 1 ==> ([blank] + g)[k] == g[k - 1];
  }

  /** Before a further field, a string that starts with a separator has a
      non-empty first gap. */
  lemma FirstGapNonEmpty(rest: string, tail: seq<string>, g: seq<string>, f: char -> bool)
    requires rest == [] || f(rest[0])
    requires tail != [] && tail[0] != [] && NoneOf(tail[0], f)
    requires |g| == |tail| + 1 && Interleave(g, tail) == rest
    ensures g[0] != []
  {
    assert rest == g[0] + tail[0] + Interleave(g[1..], tail[1..]);
    assert (g[0] + tail[0])[|g[0]|] == tail[0][0];
  }

  /** `fs` are the maximal runs of `s` outside `f`: some gaps separate
      them and glue back with them to `s`. */
  ghost predicate RunsOf(s: string, fs: seq<string>, f: char -> bool) {
    exists gaps :: |gaps| == |fs| + 1 && Separators(gaps, f) && Interleave(gaps, fs) == s
  }

  /** A field and the gap in front of it extend the runs of the rest. */
  lemma RunsOfCons(s: string, blank: string, w: string, rest: string, tail: seq<string>, f: char -> bool)
    requires s == blank + (w + rest)
    requires AllOf(blank, f) && w != [] && NoneOf(w, f)
    requires rest == [] || f(rest[0])
    requires forall v :: v in tail ==> |v| > 0 && NoneOf(v, f)
    requires RunsOf(rest, tail, f)
    ensures RunsOf(s, [w] + tail, f)
  {
    var g :| |g| == |tail| + 1 && Separators(g, f) && Interleave(g, tail) == rest;
    SeparatorsCons(blank, w, rest, tail, g, f);
    assert blank + (w + rest) == blank + w + rest;
  }

  /** Go's `strings.FieldsFunc`: the maximal runs of code points that do
      not satisfy `f`. The fields are non-empty and free of `f`, the gaps
      around them hold only `f` code points and every gap between two
      fields holds at least one, and the fields concatenated are what `s`
      holds besides `f`. */
  function FieldsFunc(s: string, f: char -> bool): (fs: seq<string>)
    ensures forall w :: w in fs ==> |w| > 0 && NoneOf(w, f)
    ensures RunsOf(s, fs, f)
    ensures Concat(fs) == Keep(s, f)
    decreases |s|
  {
    var t := TrimLeftFunc(s, f);
    WordSplit(s, f);
    if t == [] then
      AllCut(s, f);
      assert Interleave([s], []) == s;
      []
    else
      FirstRun(s, f);
      var w := Word(t, f);
      var rest := t[|w|..];
      var tail := FieldsFunc(rest, f);
      var fs := [w] + tail;
      assert fs[0] == w && fs[1..] == tail;
      RunsOfCons(s, s[..|s| - |t|], w, rest, tail, f);
      fs
  }

  /** A word with no separator in it is taken whole. */
  lemma {:induction false} WordAll(s: string, f: char -> bool)
    requires NoneOf(s, f)
    ensures Word(s, f) == s
  {
    if s != [] {
      WordAll(s[1..], f);
    }
  }

  /** A non-empty string with no separator is a single field. */
  lemma FieldsSingle(s: string, f: char -> bool)
    requires s != [] && NoneOf(s, f)
    ensures FieldsFunc(s, f) == [s]
  {
    assert TrimLeftFunc(s, f) == s;
    WordAll(s, f);
    assert s[|s|..] == [];
  }

  /** The longest prefix free of `f` is everything before the first `f`
      code point. */
  lemma {:induction false} WordBefore(a: string, rest: string, f: char -> bool)
    requires NoneOf(a, f) && rest != [] && f(rest[0])
    ensures Word(a + rest, f) == a
  {
    if a == [] {
      assert a + rest == rest;
    } else {
      assert (a + rest)[0] == a[0] && (a + rest)[1..] == a[1..] + rest;
      WordBefore(a[1..], rest, f);
    }
  }

  /** Two words around one separator are two fields. */
  lemma FieldsPair(s: string, a: string, b: string, f: char -> bool, sep: char)
    requires a != [] && b != [] && NoneOf(a, f) && NoneOf(b, f) && f(sep)
    requires s == a + ([sep] + b)
    ensures FieldsFunc(s, f) == [a, b]
  {
    FieldsLeadingWord(a, [sep] + b, f);
    FieldsAfterSeparator(sep, b, f);
  }

  /** A string that starts with a word followed by a separator has that
      word as its first field. */
  lemma FieldsLeadingWord(a: string, rest: string, f: char -> bool)
    requires a != [] && NoneOf(a, f) && rest != [] && f(rest[0])
    ensures FieldsFunc(a + rest, f) == [a] + FieldsFunc(rest, f)
  {
    var s := a + rest;
    assert s[0] == a[0];
    assert TrimLeftFunc(s, f) == s;
    WordBefore(a, rest, f);
    assert s[|a|..] == rest;
  }

  /** A separator in front of a word is dropped: the word is the one field. */
  lemma FieldsAfterSeparator(sep: char, b: string, f: char -> bool)
    requires b != [] && NoneOf(b, f) && f(sep)
    ensures FieldsFunc([sep] + b, f) == [b]
  {
    assert ([sep] + b)[1..] == b;
    assert TrimLeftFunc(b, f) == b;
    FieldsSingle(b, f);
  }

  /** Go's `strings.Fields`. */
  function Fields(s: string): (fs: seq<string>)
  {
    FieldsFunc(s, IsSpace)
  }

  /** Go's `strings.ReplaceAll(s, string(c), "")`: a lone `c` is dropped,
      any other lone code point is kept, and `RemoveAppend` extends this
      piece by piece to the whole string. */
  function Remove(s: string, c: char): (r: string)
    ensures c !in r
    ensures |r| == |s| - Count(s, c)
    ensures forall d :: d != c ==> (d in r <==> d in s)
    ensures |s| == 1 ==> r == if s[0] == c then [] else s
  {
    if s == [] then [] else (if s[0] == c then [] else [s[0]]) + Remove(s[1..], c)
  }

  /** Removing from two pieces and joining the results is removing from
      the joined pieces: kept code points stay in order, each once. */
  lemma {:induction false} RemoveAppend(a: string, b: string, c: char)
    ensures Remove(a + b, c) == Remove(a, c) + Remove(b, c)
  {
    if a == [] {
      assert a + b == b;
    } else {
      assert (a + b)[0] == a[0] && (a + b)[1..] == a[1..] + b;
      RemoveAppend(a[1..], b, c);
    }
  }

  /** Go's `fmt` verb `%-<width>s`: left-justify, pad with spaces to `width` code points. */
  function PadRight(s: string, width: nat): (r: string)
    ensures |r| == if |s| >= width then |s| else width
    ensures r[..|s|] == s
    ensures forall i :: |s| <= i < |r| ==> r[i] == ' '
  {
    if |s| >= width then s else s + seq(width - |s|, _ => ' ')
  }

  predicate IsDigit(c: char) {
    '0' <= c <= '9'
  }

  predicate IsDigits(s: string) {
    forall i :: 0 <= i < |s| ==> IsDigit(s[i])
  }

  function DigitValue(c: char): nat
    requires IsDigit(c)
  {
    c as int - '0' as int
  }

  /** The number that a string of decimal digits denotes. */
  function DigitsValue(s: string): nat
    requires IsDigits(s)
  {
    if s == [] then 0 else 10 * DigitsValue(s[..|s| - 1]) + DigitValue(s[|s| - 1])
  }

  /** Go's `%d` (and `strconv.Itoa`) for a non-negative number. */
  function NatToString(n: nat): (s: string)
    ensures s != [] && IsDigits(s)
    ensures DigitsValue(s) == n
    ensures |s| == 1 || s[0] != '0'
  {
    var last := ['0' + (n % 10) as char];
    if n < 10 then last
    else
      var s := NatToString(n / 10) + last;
      assert s[..|s| - 1] == NatToString(n / 10);
      s
  }

  /** `strings.HasSuffix`. */
  predicate HasSuffix(t: string, suffix: string) {
    |suffix| <= |t| && t[|t| - |suffix|..] == suffix
  }

  /** How many decimal digits `u` starts with. */
  function LeadingDigits(u: string): nat
  {
    if u != [] && IsDigit(u[0]) then 1 + LeadingDigits(u[1..]) else 0
  }

  /** Digits followed by a non-digit are all the digits a text starts with. */
  lemma {:induction false} LeadingDigitsOf(u: string, d: string, c: char)
    requires IsDigits(d) && !IsDigit(c) && d + [c] <= u
    ensures LeadingDigits(u) == |d|
  {
    if d == [] {
      assert u[0] == c;
    } else {
      assert u[0] == d[0];
      assert (d + [c])[1..] == d[1..] + [c];
      LeadingDigitsOf(u[1..], d[1..], c);
    }
  }

  /** A number printed with `%d` can be read back from any text where it
      follows a known lead and is followed by a non-digit. */
  lemma ReadNumber(t: string, lead: string, a: nat, b: nat, c: char, e: char)
    requires !IsDigit(c) && !IsDigit(e)
    requires lead + NatToString(a) + [c] <= t && lead + NatToString(b) + [e] <= t
    ensures a == b
  {
    var d1, d2 := NatToString(a), NatToString(b);
    var u := t[|lead|..];
    assert d1 + [c] <= u by {
      assert (lead + d1 + [c])[|lead|..] == d1 + [c];
    }
    assert d2 + [e] <= u by {
      assert (lead + d2 + [e])[|lead|..] == d2 + [e];
    }
    LeadingDigitsOf(u, d1, c);
    LeadingDigitsOf(u, d2, e);
    assert d1 == u[..|d1|] == d2;
  }

  /** A number from 100 to 999 prints as exactly three digits. */
  lemma ThreeDigits(n: nat)
    requires 100 <= n <= 999
    ensures |NatToString(n)| == 3
  {
    assert NatToString(n) == NatToString(n / 10) + ['0' + (n % 10) as char];
    assert NatToString(n / 10) == NatToString(n / 100) + ['0' + ((n / 10) % 10) as char];
  }

  const MaxInt64: int := 0x7FFF_FFFF_FFFF_FFFF
  const MinInt64: int := -0x8000_0000_0000_0000

  /** The optional leading sign that `strconv.Atoi` accepts. */
  predicate IsSign(sign: string) {
    sign == "" || sign == "+" || sign == "-"
  }

  /** The length of the leading sign of `s`, if any. */
  function SignLength(s: string): (k: nat)
    ensures k <= 1 && k <= |s| && IsSign(s[..k])
  {
    if s != [] && (s[0] == '+' || s[0] == '-') then 1 else 0
  }

  /** The number a sign and a digit string denote. */
  function Signed(sign: string, digits: string): int
    requires IsDigits(digits)
  {
    if sign == "-" then -(DigitsValue(digits) as int) else DigitsValue(digits)
  }

  /** Go's `strconv.Atoi` on a 64-bit platform: an optional sign, then at
      least one decimal digit, and the value must fit in an `int`. Anything
      else after the sign (a letter, a unit, a second sign, nothing at all)
      is rejected. */
  function Atoi(s: string): (r: Option<int>)
    ensures r.Some? ==> MinInt64 <= r.value <= MaxInt64
    ensures r.Some? ==> SignLength(s) < |s| && IsDigits(s[SignLength(s)..])
  {
    if s == [] then None
    else
      var digits := if s[0] == '+' || s[0] == '-' then s[1..] else s;
      if digits == [] || !IsDigits(digits) then None
      else
        var v: int := if s[0] == '-' then -(DigitsValue(digits) as int) else DigitsValue(digits);
        if MinInt64 <= v <= MaxInt64 then Some(v) else None
  }

  /** `%d` and Atoi are inverse on the numbers an `int` holds. */
  lemma AtoiNatToString(n: nat)
    requires n <= MaxInt64
    ensures Atoi(NatToString(n)) == Some(n)
  {
  }

  /** A sign followed by digits is accepted exactly when its value fits in
      an `int`, and then gives that value. With the rejection clause of
      `Atoi`'s contract this decides every input. */
  lemma AtoiSigned(sign: string, digits: string)
    requires IsSign(sign) && digits != [] && IsDigits(digits)
    ensures var v := Signed(sign, digits);
      Atoi(sign + digits) == if MinInt64 <= v <= MaxInt64 then Some(v) else None
  {
    var s := sign + digits;
    if sign == "" {
      assert s == digits && IsDigit(s[0]);
    } else {
      assert s[0] == sign[0] && s[1..] == digits;
    }
  }

  /** A signed count is read with its sign. */
  lemma AtoiReadsSign()
    ensures Atoi("+5") == Some(5) && Atoi("-5") == Some(-5) && Atoi("15") == Some(15)
  {
    assert DigitsValue("5") == 5;
    assert DigitsValue("15") == 15 by {
      assert "15"[..1] == "1";
    }
    assert "+" + "5" == "+5" && "-" + "5" == "-5" && "" + "15" == "15";
    AtoiSigned("+", "5");
    AtoiSigned("-", "5");
    AtoiSigned("", "15");
  }

  /** A trailing unit, a stray letter or a bare sign is rejected. */
  lemma AtoiRejectsNonDigits()
    ensures Atoi("5m") == None && Atoi("1a") == None && Atoi("+") == None && Atoi("") == None
  {
    assert "5m"[1] == 'm' && "1a"[1] == 'a';
  }

  /** Atoi accepts exactly the digit strings (with an optional sign) whose value fits. */
  lemma AtoiDigits(s: string)
    requires s != [] && IsDigits(s)
    ensures Atoi(s) == if DigitsValue(s) <= MaxInt64 then Some(DigitsValue(s)) else None
  {
  }
}
