/**
 * Decimal text of integers, as it crosses the boundary between the C# client and the
 * store: C# `long.ToString()` and Lua's formatting of integral numbers produce it, Lua's
 * `tonumber`, Redis' integer commands and .NET's `long.TryParse` read it back.
 */
module Decimal {
  import opened Wrappers

  const MinLong: int := -0x8000_0000_0000_0000
  const MaxLong: int := 0x7FFF_FFFF_FFFF_FFFF

  predicate IsDigit(c: char) { '0' <= c <= '9' }

  predicate AllDigits(s: string) {
    forall i | 0 <= i < |s| :: IsDigit(s[i])
  }

  function DigitValue(c: char): nat
    requires IsDigit(c)
  {
    c as int - '0' as int
  }

  function DigitChar(d: nat): (c: char)
    requires d < 10
    ensures IsDigit(c) && DigitValue(c) == d
  {
    ('0' as int + d) as char
  }

  /** Decimal digits of `n`, most significant first, without leading zeros. */
  function NatToString(n: nat): (s: string)
    ensures |s| > 0 && AllDigits(s)
    ensures s[0] == '0' <==> n == 0
    ensures n < 10 <==> |s| == 1
  {
    if n < 10 then [DigitChar(n)] else NatToString(n / 10) + [DigitChar(n % 10)]
  }

  /** `long.ToString()` in the invariant culture: a minus sign for negative values, then the digits. */
  function IntToString(n: int): (s: string)
    ensures |s| > 0
    ensures n >= 0 ==> AllDigits(s)
    ensures n < 0 ==> s[0] == '-' && |s| > 1 && AllDigits(s[1..])
  {
    if n < 0 then "-" + NatToString(-n) else NatToString(n)
  }

  /** The number written by a non-empty string of digits. */
  function DigitsValue(s: string): nat
    requires |s| > 0 && AllDigits(s)
  {
    if |s| == 1 then DigitValue(s[0])
    else 10 * DigitsValue(s[..|s| - 1]) + DigitValue(s[|s| - 1])
  }

  /**
   * A plain decimal integer: an optional minus sign followed by one or more digits
   * (leading zeros allowed). This is what Lua's `tonumber` makes of integer text.
   */
  function ParseDecimal(s: string): Option<int> {
    if |s| > 1 && s[0] == '-' && AllDigits(s[1..]) then Some(0 - DigitsValue(s[1..]) as int)
    else if |s| > 0 && AllDigits(s) then Some(DigitsValue(s))
    else None
  }

  /**
   * Redis accepts a stored string as an integer only in its canonical form: the text
   * that formatting the number would produce (no sign other than '-', no leading zeros).
   */
  predicate IsCanonicalInteger(s: string) {
    ParseDecimal(s).Some? && IntToString(ParseDecimal(s).value) == s
  }

  lemma {:induction false} NatToStringValue(n: nat)
    ensures DigitsValue(NatToString(n)) == n
  {
    if n >= 10 {
      var s := NatToString(n);
      assert s[..|s| - 1] == NatToString(n / 10);
      NatToStringValue(n / 10);
    }
  }

  /** Digits that formatting wrote parse back as the number. */
  lemma ParseNatToString(n: nat)
    ensures ParseDecimal(NatToString(n)) == Some(n)
  {
    var s := NatToString(n);
    NatToStringValue(n);
    assert IsDigit(s[0]);
  }

  /** Reading back the text that formatting wrote gives the number again. */
  lemma ParseIntToString(n: int)
    ensures ParseDecimal(IntToString(n)) == Some(n)
    ensures IsCanonicalInteger(IntToString(n))
  {
    var s := IntToString(n);
    if n < 0 {
      var t := NatToString(-n);
      assert s == "-" + t && s[1..] == t;
      NatToStringValue(-n);
    } else {
      ParseNatToString(n);
    }
    assert ParseDecimal(s) == Some(n);
  }

  lemma IntToStringInjective(a: int, b: int)
    requires IntToString(a) == IntToString(b)
    ensures a == b
  {
    ParseIntToString(a);
    ParseIntToString(b);
  }

  /** Formatting a natural number never writes a minus sign. */
  lemma NatTextHasNoMinus(n: int, i: int)
    requires n >= 0 && 0 <= i < |IntToString(n)|
    ensures IntToString(n)[i] != '-'
  {
  }

  // ---------------------------------------------------------------------------
  // The client library's parse of a reply as a 64-bit integer
  // ---------------------------------------------------------------------------

  /** The digits-and-sign core of the text, before the range check. */
  function ParseSigned(t: string): Option<int> {
    if |t| > 1 && t[0] == '-' && AllDigits(t[1..]) then Some(0 - DigitsValue(t[1..]) as int)
    else if |t| > 1 && t[0] == '+' && AllDigits(t[1..]) then Some(DigitsValue(t[1..]))
    else if |t| > 0 && AllDigits(t) then Some(DigitsValue(t))
    else None
  }

  /**
   * An optional sign, one or more digits, and a value that fits a 64-bit signed
   * integer; anything else fails.
   */
  function ParseLong(s: string): (r: Option<int>)
    ensures r.Some? ==> MinLong <= r.value <= MaxLong
  {
    match ParseSigned(s)
    case Some(v) => if MinLong <= v <= MaxLong then Some(v) else None
    case None => None
  }

  /** What `long.ToString()` writes, the client parses back. */
  lemma ParseLongOfIntToString(n: int)
    requires MinLong <= n <= MaxLong
    ensures ParseLong(IntToString(n)) == Some(n)
  {
    ParseIntToString(n);
  }
}
