/**
 * The request-field parsers: `parse_int`, `parse_bool` and `parse_date`.
 * None of them raises; a value they cannot read becomes `None`.
 */
module Helpers {
  import opened Wrappers
  import opened Python

  predicate IsDigit(c: char) {
    '0' <= c <= '9'
  }

  function DigitValue(c: char): nat
    requires IsDigit(c)
  {
    c as int - '0' as int
  }

  function DigitChar(d: nat): (c: char)
    requires d < 10
    ensures IsDigit(c) && DigitValue(c) == d
  {
    ('0' as int + d) as char
  }

  /**
   * The digit part of a base-10 literal as `int()` accepts it: ASCII digits,
   * starting and ending with a digit, with single underscores allowed between
   * digits (`1_000`).
   */
  predicate IsDigitRun(s: string) {
    && |s| > 0
    && IsDigit(s[0])
    && IsDigit(s[|s| - 1])
    && (forall i :: 0 <= i < |s| ==> IsDigit(s[i]) || s[i] == '_')
    && (forall i :: 0 <= i < |s| - 1 ==> s[i] != '_' || s[i + 1] != '_')
  }

  /** `s` with its underscores removed. */
  function DropUnderscores(s: string): (r: string)
    ensures |r| <= |s|
    ensures '_' !in r
    ensures (forall i :: 0 <= i < |s| ==> IsDigit(s[i]) || s[i] == '_') ==>
              forall i :: 0 <= i < |r| ==> IsDigit(r[i])
  {
    if |s| == 0 then ""
    else if s[0] == '_' then DropUnderscores(s[1..])
    else [s[0]] + DropUnderscores(s[1..])
  }

  /** The number a string of ASCII digits denotes, most significant digit first. */
  function DigitsValue(ds: string): nat
    requires forall i :: 0 <= i < |ds| ==> IsDigit(ds[i])
  {
    if |ds| == 0 then 0 else DigitsValue(ds[..|ds| - 1]) * 10 + DigitValue(ds[|ds| - 1])
  }

  /**
   * What `int()` reads from already stripped text: an optional sign followed by
   * a digit run; anything else makes it raise.
   */
  function ReadSigned(t: string): (r: Option<int>)
    ensures r.Some? ==> exists k :: 0 <= k < |t| && IsDigit(t[k])
  {
    if |t| > 0 && (t[0] == '+' || t[0] == '-') then
      var body := t[1..];
      if IsDigitRun(body) then
        assert IsDigit(t[1]);
        var n: int := DigitsValue(DropUnderscores(body));
        Some(if t[0] == '-' then -n else n)
      else None
    else if IsDigitRun(t) then Some(DigitsValue(DropUnderscores(t)))
    else None
  }

  /**
   * `int(s)` for a string: surrounding whitespace (as `int()` knows it) is
   * ignored, an optional sign may precede the digits, and anything else makes
   * `int()` raise, which `parse_int` turns into `None`.
   */
  function ParseDecimal(s: string): (r: Option<int>)
  {
    ReadSigned(Strip(s, IntSpace))
  }

  /** A string that `int()` accepts contains at least one digit. */
  lemma ParseDecimalHasDigit(s: string)
    requires ParseDecimal(s).Some?
    ensures exists i :: 0 <= i < |s| && IsDigit(s[i])
  {
    var t := Strip(s, IntSpace);
    assert ReadSigned(t).Some?;
    var k :| 0 <= k < |t| && IsDigit(t[k]);
    var i := StrippedIndex(s, k);
    assert IsDigit(s[i]);
  }

  /** Where the `k`-th character of the stripped text sits in `s`. */
  lemma StrippedIndex(s: string, k: nat) returns (i: nat)
    requires k < |Strip(s, IntSpace)|
    ensures i < |s| && s[i] == Strip(s, IntSpace)[k]
  {
    i := LeadingSpaces(s, IntSpace) + k;
  }

  /**
   * `parse_int(x)`: `int(x)`, or `None` where `int()` raises. `int(None)` raises
   * a `TypeError`; booleans convert to 0 and 1; integers are kept.
   */
  function ParseInt(x: Value): (r: Option<int>)
    ensures x.PyNone? ==> r.None?
    ensures x.PyBool? || x.PyInt? ==> r == Some(NumericValue(x))
  {
    match x
    case PyNone => None
    case PyBool(b) => Some(if b then 1 else 0)
    case PyInt(i) => Some(i)
    case PyStr(s) => ParseDecimal(s)
  }

  /** The decimal digits of `n`, as `str(n)` writes them for a natural number. */
  function NatDigits(n: nat): (r: string)
    ensures |r| > 0
    ensures forall i :: 0 <= i < |r| ==> IsDigit(r[i])
  {
    if n < 10 then [DigitChar(n)] else NatDigits(n / 10) + [DigitChar(n % 10)]
  }

  /** `str(n)`: the decimal rendering of an integer, with a `-` for negatives. */
  function IntToDecimal(n: int): string {
    if n < 0 then "-" + NatDigits(-n) else NatDigits(n)
  }

  lemma {:induction false} NatDigitsValue(n: nat)
    ensures DigitsValue(NatDigits(n)) == n
  {
    if n >= 10 {
      var ds := NatDigits(n);
      assert ds[..|ds| - 1] == NatDigits(n / 10);
      NatDigitsValue(n / 10);
    }
  }

  lemma {:induction false} DropUnderscoresOfDigits(s: string)
    requires forall i :: 0 <= i < |s| ==> IsDigit(s[i])
    ensures DropUnderscores(s) == s
  {
    if |s| > 0 {
      DropUnderscoresOfDigits(s[1..]);
      assert [s[0]] + s[1..] == s;
    }
  }

  lemma ReadNatDigits(m: nat)
    ensures ReadSigned(NatDigits(m)) == Some(m)
  {
    var ds := NatDigits(m);
    NatDigitsValue(m);
    DropUnderscoresOfDigits(ds);
    assert IsDigitRun(ds);
  }

  lemma ReadNegatedDigits(m: nat)
    ensures ReadSigned("-" + NatDigits(m)) == Some(-(m as int))
  {
    var ds := NatDigits(m);
    NatDigitsValue(m);
    DropUnderscoresOfDigits(ds);
    assert IsDigitRun(ds);
    assert ("-" + ds)[1..] == ds;
  }

  /** `int()` reads back the digits `str(n)` writes, before any stripping. */
  lemma ReadDecimal(n: int)
    ensures ReadSigned(IntToDecimal(n)) == Some(n)
  {
    if n < 0 {
      assert IntToDecimal(n) == "-" + NatDigits(-n);
      ReadNegatedDigits(-n);
    } else {
      assert IntToDecimal(n) == NatDigits(n);
      ReadNatDigits(n);
    }
  }

  lemma DecimalIsStripped(n: int)
    ensures Strip(IntToDecimal(n), IntSpace) == IntToDecimal(n)
  {
    var s := IntToDecimal(n);
    var ds := NatDigits(if n < 0 then -n else n);
    assert IsDigit(s[|s| - 1]) by {
      if n < 0 {
        assert s[|s| - 1] == ds[|ds| - 1];
      }
    }
    StripUnpadded(s, IntSpace);
  }

  /** Round trip: `parse_int(str(n)) == n` for every integer `n`. */
  lemma ParseIntOfDecimal(n: int)
    ensures ParseInt(PyStr(IntToDecimal(n))) == Some(n)
  {
    DecimalIsStripped(n);
    ReadDecimal(n);
  }

  /** Non-numeric input gives `None` rather than an exception, e.g. `parse_int('abc')`. */
  lemma ParseIntRejectsNonNumeric(s: string)
    requires forall i :: 0 <= i < |s| ==> !IsDigit(s[i])
    ensures ParseInt(PyStr(s)) == None
  {
  }

  /**
   * Whitespace that `int()` skips, added at either end, does not change what
   * `parse_int` reads.
   */
  lemma ParseIntIgnoresPadding(pre: string, s: string, post: string)
    requires forall i :: 0 <= i < |pre| ==> IsSpaceFor(IntSpace, pre[i])
    requires forall i :: 0 <= i < |post| ==> IsSpaceFor(IntSpace, post[i])
    ensures ParseInt(PyStr(pre + s + post)) == ParseInt(PyStr(s))
  {
    StripPadded(pre, s, post, IntSpace);
  }

  /**
   * The ASCII separators U+001C to U+001F are whitespace to `str.strip()` but
   * not to `int()`: text that starts with one is refused, so
   * `parse_int('\x1c5')` is `None`.
   */
  lemma ParseIntRejectsSeparator(c: char, s: string)
    requires '\U{1c}' <= c <= '\U{1f}'
    ensures IsSpace(c)
    ensures ParseInt(PyStr([c] + s)) == None
  {
    var p := [c] + s;
    assert !IsSpaceFor(IntSpace, p[0]);
    assert LeadingSpaces(p, IntSpace) == 0;
    var t := Strip(p, IntSpace);
    assert t != [] && t[0] == c;
  }

  /** `parse_bool(x)`: `True` for a value equal to `True` or `'true'`, `False` for
   *  one equal to `False` or `'false'`, otherwise `None`. */
  function ParseBool(x: Value): (r: Value)
    ensures r == PyBool(true) <==> x == PyBool(true) || x == PyInt(1) || x == PyStr("true")
    ensures r == PyBool(false) <==> x == PyBool(false) || x == PyInt(0) || x == PyStr("false")
    ensures r.PyNone? || r.PyBool?
  {
    if PyEq(x, PyBool(true)) || PyEq(x, PyStr("true")) then PyBool(true)
    else if PyEq(x, PyBool(false)) || PyEq(x, PyStr("false")) then PyBool(false)
    else PyNone
  }

  /** The match on strings is case-sensitive: only `'true'` and `'false'` are read. */
  lemma ParseBoolCaseSensitive(s: string)
    requires s != "true" && s != "false"
    ensures ParseBool(PyStr(s)) == PyNone
  {
  }

  /** `parse_bool(parse_bool(x)) == parse_bool(x)`: `True`, `False` and `None` map to themselves. */
  lemma ParseBoolIdempotent(x: Value)
    ensures ParseBool(ParseBool(x)) == ParseBool(x)
  {
  }

  /**
   * `parse_date(x)`: `strptime(x, ISO_FORMAT)`, or `None` where it raises. The
   * date grammar belongs to the datetime library and is the parameter `strptime`,
   * which answers `None` for text it rejects; a non-string raises a `TypeError`.
   */
  function ParseDate<D>(x: Value, strptime: string -> Option<D>): (r: Option<D>)
    ensures !x.PyStr? ==> r.None?
    ensures x.PyStr? ==> r == strptime(x.s)
  {
    match x
    case PyStr(s) => strptime(s)
    case _ => None
  }
}
