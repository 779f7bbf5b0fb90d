/**
 * The string grammars the services rely on: `new BigDecimal(String)`,
 * `Integer.parseInt(String)` and `LocalDate.parse(s, "yyyy-MM-dd")`.
 * Only ASCII digits are modelled.
 */
module Lexical {
  import opened Results

  const INT_MIN: int := -0x8000_0000
  const INT_MAX: int := 0x7fff_ffff

  predicate IsDigit(c: char)
  {
    '0' <= c <= '9'
  }

  predicate AllDigits(s: string)
  {
    forall i :: 0 <= i < |s| ==> IsDigit(s[i])
  }

  /** The number written by a string of decimal digits. */
  function DigitsValue(s: string): nat
    requires AllDigits(s)
  {
    if s == [] then 0
    else 10 * DigitsValue(s[..|s| - 1]) + (s[|s| - 1] as int - '0' as int)
  }

  /** The string without its one optional leading sign. */
  function Unsigned(s: string): string
  {
    if |s| > 0 && (s[0] == '+' || s[0] == '-') then s[1..] else s
  }

  /** An optional sign followed by at least one digit. */
  predicate IsSignedInteger(s: string)
  {
    var d := Unsigned(s);
    |d| >= 1 && AllDigits(d)
  }

  /** Position of the first occurrence of `c` in `s`, or `|s|`. */
  function IndexOf(s: string, c: char): (k: nat)
    ensures k <= |s|
    ensures forall i :: 0 <= i < k ==> s[i] != c
    ensures k < |s| ==> s[k] == c
  {
    if s == [] then 0
    else if s[0] == c then 0
    else 1 + IndexOf(s[1..], c)
  }

  /** Position of the first exponent marker `e` or `E`, or `|s|`. */
  function ExponentStart(s: string): (k: nat)
    ensures k <= |s|
    ensures forall i :: 0 <= i < k ==> s[i] != 'e' && s[i] != 'E'
    ensures k < |s| ==> s[k] == 'e' || s[k] == 'E'
  {
    if s == [] then 0
    else if s[0] == 'e' || s[0] == 'E' then 0
    else 1 + ExponentStart(s[1..])
  }

  /** Digits with at most one decimal point and at least one digit. */
  predicate IsSignificand(t: string)
  {
    var d := IndexOf(t, '.');
    AllDigits(t[..d]) &&
    if d == |t| then |t| >= 1 else AllDigits(t[d + 1..]) && |t| >= 2
  }

  /**
   * The strings `new BigDecimal(s)` accepts: an optional sign, a
   * significand, and an optional exponent `e`/`E` with a signed integer.
   */
  predicate IsBigDecimal(s: string)
  {
    var u := Unsigned(s);
    var k := ExponentStart(u);
    IsSignificand(u[..k]) && (k == |u| || IsSignedInteger(u[k + 1..]))
  }

  /** The value of a signed integer literal. */
  function SignedValue(s: string): int
    requires IsSignedInteger(s)
  {
    var n: int := DigitsValue(Unsigned(s));
    if s[0] == '-' then -n else n
  }

  /** `Integer.parseInt(s)`; `None` is the `NumberFormatException`. */
  function ParseInt(s: string): (r: Option<int>)
    ensures r.Some? ==> INT_MIN <= r.value <= INT_MAX
    ensures r.Some? <==> IsSignedInteger(s) && INT_MIN <= SignedValue(s) <= INT_MAX
  {
    if IsSignedInteger(s) && INT_MIN <= SignedValue(s) <= INT_MAX
    then Some(SignedValue(s)) else None
  }

  /**
   * The year field of pattern `yyyy` (year of era, width 4 to 19, sign
   * only when the width is exceeded), within the range of `LocalDate`.
   */
  predicate IsYear(y: string)
  {
    || (|y| == 4 && AllDigits(y) && DigitsValue(y) >= 1)
    || (6 <= |y| <= 20 && y[0] == '+' && AllDigits(y[1..]) &&
        1 <= DigitsValue(y[1..]) <= 999_999_999)
  }

  /**
   * The strings `LocalDate.parse(s, ofPattern("yyyy-MM-dd"))` accepts with
   * the default smart resolver: month 01-12, day 01-31 (a day past the end
   * of the month is clamped, not rejected).
   */
  predicate IsIsoDate(s: string)
  {
    |s| >= 10 &&
    var y, r := s[..|s| - 6], s[|s| - 6..];
    r[0] == '-' && r[3] == '-' && AllDigits(r[1..3]) && AllDigits(r[4..]) &&
    1 <= DigitsValue(r[1..3]) <= 12 && 1 <= DigitsValue(r[4..]) <= 31 &&
    IsYear(y)
  }

  /** The decimal rendering of a natural number, as `Integer.toString`. */
  function NatText(n: nat): (s: string)
    ensures |s| >= 1 && AllDigits(s)
  {
    var d := [('0' as int + n % 10) as char];
    if n < 10 then d else NatText(n / 10) + d
  }

  /** Parsing the rendering of a natural number gives the number back. */
  lemma {:induction false} DigitsValueOfNatText(n: nat)
    ensures DigitsValue(NatText(n)) == n
  {
    var s := NatText(n);
    assert s[..|s| - 1] == if n < 10 then [] else NatText(n / 10);
    if n >= 10 {
      DigitsValueOfNatText(n / 10);
    }
  }

  /** `Integer.parseInt(Integer.toString(n)) == n` for every non-negative int. */
  lemma ParseIntOfNatText(n: nat)
    requires n <= INT_MAX
    ensures ParseInt(NatText(n)) == Some(n)
  {
    DigitsValueOfNatText(n);
    assert Unsigned(NatText(n)) == NatText(n);
  }

  /** A non-empty string of digits, with or without a leading minus, is a decimal. */
  lemma DigitsAreBigDecimal(s: string)
    requires |s| >= 1 && AllDigits(s)
    ensures IsBigDecimal(s) && IsBigDecimal("-" + s)
  {
    assert Unsigned(s) == s;
    assert Unsigned("-" + s) == s;
    var k := ExponentStart(s);
    var d := IndexOf(s, '.');
    assert s[..k][..d] == s;
  }

  /** Digits, a point and digits form a decimal. */
  lemma FractionIsBigDecimal(a: string, b: string)
    requires |a| >= 1 && AllDigits(a) && |b| >= 1 && AllDigits(b)
    ensures IsBigDecimal(a + "." + b)
  {
    var s := a + "." + b;
    assert IsDigit(s[0]);
    assert Unsigned(s) == s;
    var k := ExponentStart(s);
    assert k == |s|;
    var d := IndexOf(s, '.');
    assert s[|a|] == '.';
    assert d == |a|;
    assert s[..k][..d] == a;
    assert s[..k][d + 1..] == b;
  }
}
