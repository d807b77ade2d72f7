/**
 * Decimal rendering and parsing of integers: Python's `str(n)` / f-string
 * `{n}` and `{n:02d}` for the formatters, and `int(s)` for the page parameter.
 */
module Decimal {
  import opened Wrappers
  import Text

  predicate IsDigit(c: char)
  {
    '0' <= c <= '9'
  }

  predicate AllDigits(s: string)
  {
    forall i :: 0 <= i < |s| ==> IsDigit(s[i])
  }

  function DigitChar(d: nat): (c: char)
    requires d < 10
    ensures IsDigit(c)
  {
    (48 + d) as char
  }

  function DigitValue(c: char): (d: nat)
    requires IsDigit(c)
    ensures d < 10
  {
    c as int - 48
  }

  /** `str(n)` for a non-negative integer: no sign, no leading zeros. */
  function ShowNat(n: nat): (s: string)
    ensures |s| > 0 && AllDigits(s)
    ensures s[0] == '0' ==> n == 0
    decreases n
  {
    if n < 10 then [DigitChar(n)] else ShowNat(n / 10) + [DigitChar(n % 10)]
  }

  /** The value of a string of decimal digits (most significant first). */
  function DigitsValue(s: string): nat
    requires AllDigits(s)
    decreases |s|
  {
    if s == [] then 0 else DigitsValue(s[..|s| - 1]) * 10 + DigitValue(s[|s| - 1])
  }

  /** A non-empty run of decimal digits, read as a number. */
  function ParseNat(s: string): Option<nat>
  {
    if s != [] && AllDigits(s) then Some(DigitsValue(s)) else None
  }

  lemma {:induction false} ParseShowNat(n: nat)
    ensures ParseNat(ShowNat(n)) == Some(n)
    decreases n
  {
    var s := ShowNat(n);
    assert DigitValue(DigitChar(n % 10)) == n % 10;
    if n >= 10 {
      ParseShowNat(n / 10);
      assert s[..|s| - 1] == ShowNat(n / 10);
      assert DigitsValue(s) == (n / 10) * 10 + n % 10;
    } else {
      assert s[..|s| - 1] == [];
      assert DigitsValue(s) == DigitValue(DigitChar(n));
    }
  }

  /** f"{n:02d}": at least two digits, zero-padded on the left. */
  function Pad2(n: nat): (s: string)
    ensures |s| >= 2 && AllDigits(s)
    ensures n < 100 ==> |s| == 2
    ensures ParseNat(s) == Some(n)
  {
    ParseShowNat(n);
    if n < 10 then
      var s := "0" + ShowNat(n);
      assert s[..|s| - 1] == "0" && s[|s| - 1] == DigitChar(n);
      assert DigitsValue("0") == 0 by { assert "0"[..0] == []; }
      assert DigitsValue(s) == DigitValue(DigitChar(n));
      s
    else ShowNat(n)
  }

  /**
   * Python's `int(s)` on a string: surrounding whitespace is ignored, one
   * optional sign, then decimal digits. `None` stands for the ValueError.
   */
  function ParseInt(s: string): (r: Option<int>)
    ensures r.Some? ==> var t := Text.Strip(s);
      && |t| > 0 && (IsDigit(t[0]) || t[0] == '-' || t[0] == '+') && AllDigits(t[1..])
    ensures r.Some? && r.value < 0 ==> Text.Strip(s)[0] == '-'
  {
    ParseSigned(Text.Strip(s))
  }

  /** An optional sign followed by a non-empty run of digits, nothing around them. */
  function ParseSigned(t: string): (r: Option<int>)
    ensures r.Some? ==> |t| > 0 && (IsDigit(t[0]) || t[0] == '-' || t[0] == '+') && AllDigits(t[1..])
    ensures r.Some? && r.value < 0 ==> t[0] == '-'
  {
    if |t| > 0 && (t[0] == '-' || t[0] == '+') then
      match ParseNat(t[1..])
      case Some(n) => var v: int := if t[0] == '-' then -(n as int) else n; Some(v)
      case None => None
    else
      match ParseNat(t)
      case Some(n) => Some(n)
      case None => None
  }

  lemma ParseIntShowNat(n: nat)
    ensures ParseInt(ShowNat(n)) == Some(n)
  {
    var s := ShowNat(n);
    ParseShowNat(n);
    Text.StripUntrimmed(s);
  }

  /** A minus sign in front of the digits negates the number. */
  lemma ParseIntNegative(n: nat)
    ensures ParseInt("-" + ShowNat(n)) == Some(-(n as int))
  {
    var s := "-" + ShowNat(n);
    ParseShowNat(n);
    assert s[|s| - 1] == ShowNat(n)[|ShowNat(n)| - 1];
    Text.StripUntrimmed(s);
    assert s[1..] == ShowNat(n);
  }

  /** Whitespace around the number never changes what `int()` reads. */
  lemma ParseIntStrip(s: string)
    ensures ParseInt(Text.Strip(s)) == ParseInt(s)
  {
    Text.StripIdempotent(s);
  }

  /**
   * Splits `s` at the first occurrence of `sep`: the text before it and the
   * text after it, or `None` when `sep` does not occur.
   */
  function SplitAt(s: string, sep: char): (r: Option<(string, string)>)
    ensures r.Some? ==> s == r.value.0 + [sep] + r.value.1 && sep !in r.value.0
    ensures r.None? <==> sep !in s
  {
    if |s| == 0 then None
    else if s[0] == sep then Some(([], s[1..]))
    else
      match SplitAt(s[1..], sep)
      case Some((a, b)) => Some(([s[0]] + a, b))
      case None => None
  }

  lemma {:induction false} SplitAtJoin(a: string, sep: char, b: string)
    requires sep !in a
    ensures SplitAt(a + [sep] + b, sep) == Some((a, b))
    decreases |a|
  {
    var s := a + [sep] + b;
    if |a| > 0 {
      assert s[0] == a[0] && a[0] != sep;
      assert s[1..] == a[1..] + [sep] + b;
      assert [a[0]] + a[1..] == a;
      SplitAtJoin(a[1..], sep, b);
    }
  }
}
