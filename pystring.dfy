/**
  The parts of Python's `str` that the chatbot relies on: the whitespace test
  behind `str.strip()`, `strip()` itself, and the decimal rendering an
  f-string gives to a non-negative `int`.
 */
module PyString {

  /** The 29 code points for which Python's `str.isspace()` holds, listed one
      by one. */
  const WhitespaceTable: set<int> :=
    {0x09, 0x0A, 0x0B, 0x0C, 0x0D, 0x1C, 0x1D, 0x1E, 0x1F, 0x20, 0x85, 0xA0,
     0x1680, 0x2000, 0x2001, 0x2002, 0x2003, 0x2004, 0x2005, 0x2006, 0x2007,
     0x2008, 0x2009, 0x200A, 0x2028, 0x2029, 0x202F, 0x205F, 0x3000}

  /** Python's `str.isspace()` on one character, by code-point ranges: the
      characters `str.strip()` removes when it is called without arguments.
      The ranges cover exactly the code points of the table. */
  predicate IsSpace(c: char)
    ensures IsSpace(c) <==> c as int in WhitespaceTable
  {
    var n := c as int;
    (0x09 <= n <= 0x0D) || (0x1C <= n <= 0x20) || n == 0x85 || n == 0xA0
    || n == 0x1680 || (0x2000 <= n <= 0x200A) || n == 0x2028 || n == 0x2029
    || n == 0x202F || n == 0x205F || n == 0x3000
  }

  /** Every character of `s[lo..hi]` is whitespace. */
  predicate SpaceBetween(s: string, lo: nat, hi: nat)
    requires lo <= hi <= |s|
  {
    forall k :: lo <= k < hi ==> IsSpace(s[k])
  }

  /** No whitespace at either end: what `str.strip()` guarantees of its result. */
  predicate Trimmed(s: string) {
    s == [] || (!IsSpace(s[0]) && !IsSpace(s[|s| - 1]))
  }

  /** The first index at or after `i` that does not hold whitespace (or `|s|`). */
  function SkipSpace(s: string, i: nat): (n: nat)
    requires i <= |s|
    ensures i <= n <= |s| && SpaceBetween(s, i, n)
    ensures n == |s| || !IsSpace(s[n])
    decreases |s| - i
  {
    if i < |s| && IsSpace(s[i]) then SkipSpace(s, i + 1) else i
  }

  /** The end of `s[lo..j]` once trailing whitespace is cut off. */
  function SkipSpaceBack(s: string, lo: nat, j: nat): (n: nat)
    requires lo <= j <= |s|
    ensures lo <= n <= j && SpaceBetween(s, n, j)
    ensures n == lo || !IsSpace(s[n - 1])
    decreases j
  {
    if lo < j && IsSpace(s[j - 1]) then SkipSpaceBack(s, lo, j - 1) else j
  }

  /** `r` is `s[i..i + |r|]`, and everything before and after it is whitespace. */
  ghost predicate IsCoreAt(r: string, s: string, i: nat) {
    i + |r| <= |s| && r == s[i..i + |r|]
    && SpaceBetween(s, 0, i) && SpaceBetween(s, i + |r|, |s|)
  }

  /** `r` is `s` with a whitespace-only margin cut from each end. */
  ghost predicate IsCore(r: string, s: string) {
    exists i: nat :: IsCoreAt(r, s, i)
  }

  /** `str.strip()`: the result is what is left after cutting whitespace-only
      margins from both ends, and it has no whitespace at either end. */
  function Strip(s: string): (r: string)
    ensures IsCore(r, s)
    ensures Trimmed(r)
  {
    var i := SkipSpace(s, 0);
    var j := SkipSpaceBack(s, i, |s|);
    assert IsCoreAt(s[i..j], s, i);
    s[i..j]
  }

  /** Two trimmed cores of the same string, cut at offsets `i` and `j`, are equal. */
  lemma CoresEqual(s: string, r: string, i: nat, q: string, j: nat)
    requires IsCoreAt(r, s, i) && IsCoreAt(q, s, j)
    requires Trimmed(r) && Trimmed(q)
    ensures r == q
  {
    if r != [] {
      assert r[0] == s[i] && r[|r| - 1] == s[i + |r| - 1];
    }
    if q != [] {
      assert q[0] == s[j] && q[|q| - 1] == s[j + |q| - 1];
    }
  }

  /** `IsCore` and `Trimmed` together pin the result down: `Strip` is the only
      string with both. */
  lemma StripUnique(r: string, s: string)
    requires IsCore(r, s) && Trimmed(r)
    ensures r == Strip(s)
  {
    var q := Strip(s);
    var i: nat :| IsCoreAt(r, s, i);
    var j: nat :| IsCoreAt(q, s, j);
    CoresEqual(s, r, i, q, j);
  }

  /** Stripping leaves a string without surrounding whitespace unchanged. */
  lemma {:induction false} StripTrimmed(s: string)
    requires Trimmed(s)
    ensures Strip(s) == s
  {
    if s != [] {
      assert SkipSpace(s, 0) == 0;
      assert SkipSpaceBack(s, 0, |s|) == |s|;
    }
    assert s[0..|s|] == s;
  }

  /** Stripping twice is stripping once. */
  lemma StripIdempotent(s: string)
    ensures Strip(Strip(s)) == Strip(s)
  {
    StripTrimmed(Strip(s));
  }

  predicate IsDigit(c: char) {
    '0' <= c <= '9'
  }

  function DigitChar(d: nat): (c: char)
    requires d < 10
    ensures IsDigit(c) && c as int - '0' as int == d
  {
    ('0' as int + d) as char
  }

  /** A decimal numeral as `str(int)` writes it: digits only, at least one,
      and no leading zero unless the numeral is `0` itself. */
  predicate Canonical(d: string) {
    |d| > 0 && (forall i :: 0 <= i < |d| ==> IsDigit(d[i])) && (d[0] != '0' || |d| == 1)
  }

  /** `str(n)` for a non-negative Python `int`: its decimal digits, with no
      leading zero. */
  function NatToString(n: nat): (r: string)
    ensures |r| > 0 && (forall i :: 0 <= i < |r| ==> IsDigit(r[i]))
    ensures Canonical(r)
    ensures r[0] == '0' ==> n == 0
    decreases n
  {
    if n < 10 then [DigitChar(n)] else NatToString(n / 10) + [DigitChar(n % 10)]
  }

  function DigitValue(c: char): (d: nat)
    requires IsDigit(c)
    ensures d < 10 && DigitChar(d) == c
  {
    c as int - '0' as int
  }

  /** The number a string of decimal digits denotes. */
  function DigitsValue(s: string): nat
    requires forall i :: 0 <= i < |s| ==> IsDigit(s[i])
    decreases |s|
  {
    if s == [] then 0
    else DigitsValue(s[..|s| - 1]) * 10 + DigitValue(s[|s| - 1])
  }

  /** Reading back the decimal rendering gives the number again. */
  lemma {:induction false} NatToStringRoundTrip(n: nat)
    ensures DigitsValue(NatToString(n)) == n
    decreases n
  {
    var r := NatToString(n);
    if n >= 10 {
      NatToStringRoundTrip(n / 10);
      assert r[..|r| - 1] == NatToString(n / 10);
    }
  }

  /** A numeral with a non-zero leading digit denotes a positive number. */
  lemma {:induction false} LeadingNonZeroPositive(d: string)
    requires |d| > 0 && (forall i :: 0 <= i < |d| ==> IsDigit(d[i])) && d[0] != '0'
    ensures DigitsValue(d) > 0
    decreases |d|
  {
    if |d| == 1 {
      assert DigitChar(DigitValue(d[0])) == d[0];
    } else {
      LeadingNonZeroPositive(d[..|d| - 1]);
    }
  }

  /** Every canonical numeral is the rendering of the number it denotes, so
      `NatToString` and `DigitsValue` are inverse bijections between `nat`
      and canonical numerals. */
  lemma {:induction false} CanonicalRoundTrip(d: string)
    requires Canonical(d)
    ensures NatToString(DigitsValue(d)) == d
    decreases |d|
  {
    var v := DigitsValue(d);
    if |d| == 1 {
      assert d[..0] == [];
      assert DigitsValue(d[..0]) == 0;
      assert v == DigitValue(d[0]) < 10;
    } else {
      var init := d[..|d| - 1];
      var c := DigitValue(d[|d| - 1]);
      assert init[0] == d[0];
      LeadingNonZeroPositive(init);
      CanonicalRoundTrip(init);
      assert v == DigitsValue(init) * 10 + c;
      assert v / 10 == DigitsValue(init) && v % 10 == c;
      assert d == init + [d[|d| - 1]];
    }
  }

  /** The longest prefix of `s` made of digits, and what follows it. */
  function SplitDigits(s: string): (p: (string, string))
    ensures p.0 + p.1 == s
    ensures forall i :: 0 <= i < |p.0| ==> IsDigit(p.0[i])
    ensures p.1 == [] || !IsDigit(p.1[0])
    decreases |s|
  {
    if s != [] && IsDigit(s[0]) then
      var q := SplitDigits(s[1..]);
      ([s[0]] + q.0, q.1)
    else ([], s)
  }

  /** A run of digits followed by a non-digit splits exactly there. */
  lemma {:induction false} SplitDigitsOf(d: string, rest: string)
    requires forall i :: 0 <= i < |d| ==> IsDigit(d[i])
    requires rest == [] || !IsDigit(rest[0])
    ensures SplitDigits(d + rest) == (d, rest)
    decreases |d|
  {
    if d == [] {
      assert d + rest == rest;
    } else {
      assert (d + rest)[0] == d[0];
      assert (d + rest)[1..] == d[1..] + rest;
      SplitDigitsOf(d[1..], rest);
      assert [d[0]] + d[1..] == d;
    }
  }
}
