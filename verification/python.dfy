/**
 * The slice of Python's runtime behaviour the application leans on:
 * dynamically typed values and their equality, `str.isspace`, `str.strip()`,
 * the whitespace `int()` skips, and `str.split(sep)`.
 */
module Python {

  /**
   * A Python value as it reaches the models and the helpers. Form and query
   * fields are strings or `None`; flags may also be booleans or integers.
   * Floats, lists and dictionaries never reach the modelled code.
   */
  datatype Value = PyNone | PyBool(b: bool) | PyInt(i: int) | PyStr(s: string)

  /** The integer a number denotes; `bool` is a subclass of `int`, so `True` is 1. */
  function NumericValue(v: Value): int
    requires v.PyBool? || v.PyInt?
  {
    match v
    case PyBool(b) => if b then 1 else 0
    case PyInt(i) => i
  }

  /**
   * Python's `==` on these values: `None` equals only `None`, strings compare
   * by contents, and booleans and integers compare as numbers (`True == 1`).
   */
  predicate PyEq(a: Value, b: Value) {
    if a.PyNone? || b.PyNone? then a.PyNone? && b.PyNone?
    else if a.PyStr? || b.PyStr? then a.PyStr? && b.PyStr? && a.s == b.s
    else NumericValue(a) == NumericValue(b)
  }

  /**
   * `v in {True, False}`: set membership asks for an equal element, so the
   * integers 0 and 1 are members as well.
   */
  predicate InBoolSet(v: Value) {
    PyEq(v, PyBool(true)) || PyEq(v, PyBool(false))
  }

  /** Exactly the booleans and the integers 0 and 1 belong to `{True, False}`. */
  lemma InBoolSetMembers(v: Value)
    ensures InBoolSet(v) <==> v.PyBool? || v == PyInt(0) || v == PyInt(1)
  {
  }

  /** `c.isspace()`: the characters `str.strip()` removes. */
  predicate IsSpace(c: char) {
    || c == ' '
    || '\t' <= c <= '\r'
    || '\U{1c}' <= c <= '\U{1f}'
    || c == '\U{85}'
    || c == '\U{a0}'
    || c == '\U{1680}'
    || '\U{2000}' <= c <= '\U{200a}'
    || c == '\U{2028}'
    || c == '\U{2029}'
    || c == '\U{202f}'
    || c == '\U{205f}'
    || c == '\U{3000}'
  }

  /**
   * Which whitespace is removed from the ends of a string: `str.strip()`
   * removes every `isspace()` character; `int()` maps non-ASCII whitespace to
   * a space and then skips only the C-locale ASCII whitespace (space and
   * `\t` to `\r`), so the ASCII separators U+001C to U+001F are not skipped.
   */
  datatype Whitespace = StrSpace | IntSpace

  predicate IsSpaceFor(w: Whitespace, c: char) {
    IsSpace(c) && (w.IntSpace? ==> !('\U{1c}' <= c <= '\U{1f}'))
  }

  /** The first index at or after `k` that does not hold whitespace, or `|s|`. */
  function SpacesFrom(s: string, k: nat, w: Whitespace): (n: nat)
    requires k <= |s|
    ensures k <= n <= |s|
    ensures forall i :: k <= i < n ==> IsSpaceFor(w, s[i])
    ensures n == |s| || !IsSpaceFor(w, s[n])
    decreases |s| - k
  {
    if k < |s| && IsSpaceFor(w, s[k]) then SpacesFrom(s, k + 1, w) else k
  }

  /** The start of the whitespace run that ends at `k`: every index in `n..k` holds whitespace and `n - 1` does not. */
  function SpacesBefore(s: string, k: nat, w: Whitespace): (n: nat)
    requires k <= |s|
    ensures n <= k
    ensures forall i :: n <= i < k ==> IsSpaceFor(w, s[i])
    ensures n == 0 || !IsSpaceFor(w, s[n - 1])
  {
    if k > 0 && IsSpaceFor(w, s[k - 1]) then SpacesBefore(s, k - 1, w) else k
  }

  /** The number of leading whitespace characters, which stripping removes at the front. */
  function LeadingSpaces(s: string, w: Whitespace): (n: nat)
    ensures n <= |s|
  {
    SpacesFrom(s, 0, w)
  }

  /**
   * `r` is what stripping keeps of `s` when `s` has `lo` leading whitespace
   * characters: the infix of `s` at offset `lo`, with only whitespace outside
   * it, neither starting nor ending with whitespace.
   */
  predicate IsStripOf(s: string, lo: int, r: string, w: Whitespace) {
    && 0 <= lo && lo + |r| <= |s|
    && (forall i :: 0 <= i < |r| ==> r[i] == s[lo + i])
    && (forall i :: 0 <= i < lo ==> IsSpaceFor(w, s[i]))
    && (forall i :: lo + |r| <= i < |s| ==> IsSpaceFor(w, s[i]))
    && (r == [] || (!IsSpaceFor(w, r[0]) && !IsSpaceFor(w, r[|r| - 1])))
  }

  /**
   * `s` without its leading and its trailing whitespace: `s.strip()` for
   * `StrSpace`, and the text `int(s)` goes on to read for `IntSpace`.
   */
  function Strip(s: string, w: Whitespace): (r: string)
    ensures IsStripOf(s, LeadingSpaces(s, w), r, w)
  {
    var lo := LeadingSpaces(s, w);
    if lo == |s| then []
    else
      var hi := SpacesBefore(s, |s|, w);
      assert !IsSpaceFor(w, s[lo]);
      s[lo..hi]
  }

  /** Only one string is the stripped form of `s`, whatever offset it is placed at. */
  lemma IsStripOfUnique(s: string, lo1: int, r1: string, lo2: int, r2: string, w: Whitespace)
    requires IsStripOf(s, lo1, r1, w) && IsStripOf(s, lo2, r2, w)
    ensures r1 == r2
  {
    if r1 != [] {
      assert !IsSpaceFor(w, s[lo1]);
    }
    if r2 != [] {
      assert !IsSpaceFor(w, s[lo2]);
    }
    if r1 != [] && r2 != [] {
      assert lo1 == lo2;
      assert !IsSpaceFor(w, s[lo1 + |r1| - 1]) && !IsSpaceFor(w, s[lo2 + |r2| - 1]);
      assert |r1| == |r2|;
    }
  }

  /** `Strip` is the one string with the shape `IsStripOf` describes. */
  lemma StripUnique(s: string, lo: int, r: string, w: Whitespace)
    requires IsStripOf(s, lo, r, w)
    ensures Strip(s, w) == r
  {
    IsStripOfUnique(s, LeadingSpaces(s, w), Strip(s, w), lo, r, w);
  }

  /** A string that neither starts nor ends with whitespace is its own stripped form. */
  lemma StripUnpadded(s: string, w: Whitespace)
    requires s == [] || (!IsSpaceFor(w, s[0]) && !IsSpaceFor(w, s[|s| - 1]))
    ensures Strip(s, w) == s
  {
    StripUnique(s, 0, s, w);
  }

  /** Stripping is idempotent. */
  lemma StripIdempotent(s: string, w: Whitespace)
    ensures Strip(Strip(s, w), w) == Strip(s, w)
  {
    StripUnpadded(Strip(s, w), w);
  }

  /** A string made only of whitespace strips to the empty string. */
  lemma StripAllSpace(s: string, w: Whitespace)
    requires forall i :: 0 <= i < |s| ==> IsSpaceFor(w, s[i])
    ensures Strip(s, w) == ""
  {
    StripUnique(s, 0, "", w);
  }

  /** Whitespace added at either end does not change what stripping keeps. */
  lemma StripPadded(pre: string, s: string, post: string, w: Whitespace)
    requires forall i :: 0 <= i < |pre| ==> IsSpaceFor(w, pre[i])
    requires forall i :: 0 <= i < |post| ==> IsSpaceFor(w, post[i])
    ensures Strip(pre + s + post, w) == Strip(s, w)
  {
    var lo := LeadingSpaces(s, w);
    PaddedShape(pre, s, post, lo, Strip(s, w), w);
    StripUnique(pre + s + post, |pre| + lo, Strip(s, w), w);
  }

  /** Padding `s` with whitespace moves its stripped infix right by the length of the front padding. */
  lemma PaddedShape(pre: string, s: string, post: string, lo: int, r: string, w: Whitespace)
    requires forall i :: 0 <= i < |pre| ==> IsSpaceFor(w, pre[i])
    requires forall i :: 0 <= i < |post| ==> IsSpaceFor(w, post[i])
    requires IsStripOf(s, lo, r, w)
    ensures IsStripOf(pre + s + post, |pre| + lo, r, w)
  {
    var p := pre + s + post;
    var n := |pre|;
    assert forall i :: 0 <= i < |s| ==> p[n + i] == s[i];
    forall i | 0 <= i < n + lo
      ensures IsSpaceFor(w, p[i])
    {
      if i < n {
        assert p[i] == pre[i];
      } else {
        assert p[i] == s[i - n];
      }
    }
    forall i | n + lo + |r| <= i < |p|
      ensures IsSpaceFor(w, p[i])
    {
      if i < n + |s| {
        assert p[i] == s[i - n];
      } else {
        assert p[i] == post[i - n - |s|];
      }
    }
  }

  /** `sep.join(ts)` for a one-character separator. */
  function Join(ts: seq<string>, sep: char): (r: string)
    requires |ts| >= 1
  {
    if |ts| == 1 then ts[0] else ts[0] + [sep] + Join(ts[1..], sep)
  }

  /** The first piece opens the joined string and the last piece closes it. */
  lemma {:induction false} JoinEnds(ts: seq<string>, sep: char)
    requires |ts| >= 1
    ensures ts[0] <= Join(ts, sep)
    ensures var j := Join(ts, sep); var last := ts[|ts| - 1];
      |last| <= |j| && j[|j| - |last|..] == last
  {
    if |ts| > 1 {
      JoinEnds(ts[1..], sep);
      var rest := Join(ts[1..], sep);
      assert Join(ts, sep) == (ts[0] + [sep]) + rest;
      assert ts[1..][|ts[1..]| - 1] == ts[|ts| - 1];
    }
  }

  /**
   * The first two pieces open the joined string, and the second one ends at
   * the end of the string when there are just two pieces and at a separator
   * otherwise.
   */
  lemma JoinFirstTwo(ts: seq<string>, sep: char)
    requires |ts| >= 2
    ensures var j := Join(ts, sep); var e := |ts[0]| + 1 + |ts[1]|;
      && ts[0] + [sep] + ts[1] <= j
      && (e == |j| <==> |ts| == 2)
      && (e < |j| ==> j[e] == sep)
  {
    var rest := ts[1..];
    assert Join(ts, sep) == ts[0] + [sep] + Join(rest, sep);
    if |rest| > 1 {
      assert Join(rest, sep) == rest[0] + [sep] + Join(rest[1..], sep);
      assert Join(ts, sep) == (ts[0] + [sep] + ts[1]) + ([sep] + Join(rest[1..], sep));
    }
  }

  /**
   * `s.split(sep)` with an explicit one-character separator: the pieces between
   * consecutive separators, empty pieces included, so there is always at least
   * one piece, no piece holds `sep`, and joining the pieces with `sep` gives `s` back.
   */
  function Split(s: string, sep: char): (r: seq<string>)
    ensures |r| >= 1
    ensures forall i :: 0 <= i < |r| ==> sep !in r[i]
    ensures Join(r, sep) == s
  {
    if |s| == 0 then [""]
    else
      var rest := Split(s[1..], sep);
      if s[0] == sep then
        assert ([""] + rest)[1..] == rest;
        [""] + rest
      else
        var r := [[s[0]] + rest[0]] + rest[1..];
        assert r[1..] == rest[1..];
        assert s == [s[0]] + s[1..];
        r
  }

  /** A string splits into more than one piece exactly when it holds the separator. */
  lemma SplitSeveral(s: string, sep: char)
    ensures |Split(s, sep)| > 1 <==> sep in s
  {
    var r := Split(s, sep);
    if |r| > 1 {
      assert Join(r, sep) == r[0] + [sep] + Join(r[1..], sep);
      assert Join(r, sep)[|r[0]|] == sep;
    }
  }

  /** A string without the separator splits into itself alone. */
  lemma {:induction false} SplitNoSeparator(a: string, sep: char)
    requires sep !in a
    ensures Split(a, sep) == [a]
  {
    if |a| > 0 {
      assert sep !in a[1..];
      SplitNoSeparator(a[1..], sep);
      assert [a[0]] + a[1..] == a;
    }
  }

  /** A separator-free head followed by a separator splits off as the first piece. */
  lemma {:induction false} SplitHead(a: string, sep: char, b: string)
    requires sep !in a
    ensures Split(a + [sep] + b, sep) == [a] + Split(b, sep)
  {
    var s := a + [sep] + b;
    if |a| == 0 {
      assert s[1..] == b;
    } else {
      assert s[1..] == a[1..] + [sep] + b;
      assert sep !in a[1..];
      SplitHead(a[1..], sep, b);
      assert [a[0]] + a[1..] == a;
    }
  }

  /** Splitting undoes joining: separator-free pieces come back unchanged. */
  lemma {:induction false} SplitJoin(ts: seq<string>, sep: char)
    requires |ts| >= 1
    requires forall i :: 0 <= i < |ts| ==> sep !in ts[i]
    ensures Split(Join(ts, sep), sep) == ts
  {
    if |ts| == 1 {
      SplitNoSeparator(ts[0], sep);
    } else {
      SplitHead(ts[0], sep, Join(ts[1..], sep));
      SplitJoin(ts[1..], sep);
      assert [ts[0]] + ts[1..] == ts;
    }
  }
}
