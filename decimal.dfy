/**
 * The slice of JavaScript number formatting and parsing that the date-time
 * editor and the tree's id counter rely on: `n.toString()` for integers and
 * `parseInt(s, 10)`.
 */
module Decimal {

  /** A JavaScript number as the editor sees it: an integer or NaN. */
  datatype Num = Num(n: int) | NaN

  predicate IsDigit(c: char) {
    '0' <= c <= '9'
  }

  predicate AllDigits(s: string) {
    forall i :: 0 <= i < |s| ==> IsDigit(s[i])
  }

  function DigitChar(d: nat): (c: char)
    requires d < 10
    ensures IsDigit(c)
  {
    ('0' as int + d) as char
  }

  function DigitValue(c: char): (d: nat)
    requires IsDigit(c)
    ensures d < 10
  {
    c as int - '0' as int
  }

  /** Decimal digits of a natural number, without leading zeros. */
  function NatToString(n: nat): (s: string)
    ensures |s| >= 1 && AllDigits(s)
    ensures |s| > 1 ==> s[0] != '0'
    ensures n < 10 <==> |s| == 1
  {
    if n < 10 then [DigitChar(n)] else NatToString(n / 10) + [DigitChar(n % 10)]
  }

  /** `i.toString()` for an integer `i`. */
  function IntToString(i: int): string {
    if i < 0 then "-" + NatToString(-i) else NatToString(i)
  }

  /** `x.toString()` for a number that is an integer or NaN. */
  function NumToString(x: Num): string {
    match x
    case Num(i) => IntToString(i)
    case NaN => "NaN"
  }

  /** `x + k`; NaN absorbs the addition. */
  function AddInt(x: Num, k: int): Num {
    match x
    case Num(i) => Num(i + k)
    case NaN => NaN
  }

  /** The value of a string of decimal digits, most significant first. */
  function DigitsValue(s: string): nat
    requires AllDigits(s)
  {
    if s == [] then 0 else DigitsValue(s[..|s| - 1]) * 10 + DigitValue(s[|s| - 1])
  }

  /** Length of the longest prefix of `s` made of digits. */
  function DigitPrefixLength(s: string): (k: nat)
    ensures k <= |s| && AllDigits(s[..k])
    ensures k < |s| ==> !IsDigit(s[k])
  {
    if s == [] || !IsDigit(s[0]) then 0
    else
      var k := 1 + DigitPrefixLength(s[1..]);
      assert s[..k] == [s[0]] + s[1..][..k - 1];
      k
  }

  /**
   * `parseInt(s, 10)`: an optional sign followed by the longest run of
   * digits; NaN when there is no digit. (Leading white space, which no
   * string built by the editor has, is not modelled.)
   */
  function ParseInt(s: string): Num {
    var signed := |s| > 0 && (s[0] == '-' || s[0] == '+');
    var body := if signed then s[1..] else s;
    var k := DigitPrefixLength(body);
    var v: int := DigitsValue(body[..k]);
    if k == 0 then NaN
    else if signed && s[0] == '-' then Num(-v)
    else Num(v)
  }

  /** Reading back the digits of `n` gives `n`. */
  lemma {:induction false} NatToStringValue(n: nat)
    ensures DigitsValue(NatToString(n)) == n
  {
    if n >= 10 {
      var s := NatToString(n);
      NatToStringValue(n / 10);
      assert s[..|s| - 1] == NatToString(n / 10);
    }
  }

  /** Distinct natural numbers have distinct decimal strings. */
  lemma NatToStringInjective(a: nat, b: nat)
    requires NatToString(a) == NatToString(b)
    ensures a == b
  {
    NatToStringValue(a);
    NatToStringValue(b);
  }

  /** `parseInt` of a non-empty digit string is that string's value. */
  lemma ParseDigits(s: string)
    requires s != [] && AllDigits(s)
    ensures ParseInt(s) == Num(DigitsValue(s))
  {
    assert !(s[0] == '-' || s[0] == '+');
    var k := DigitPrefixLength(s);
    assert k == |s|;
    assert s[..k] == s;
  }

  /** `parseInt` of a minus sign followed by digits is the negated value. */
  lemma ParseNegativeDigits(t: string)
    requires t != [] && AllDigits(t)
    ensures ParseInt("-" + t) == Num(-(DigitsValue(t) as int))
  {
    var s := "-" + t;
    assert s[1..] == t;
    var k := DigitPrefixLength(t);
    assert k == |t|;
    assert t[..k] == t;
  }

  /** `parseInt(n.toString(), 10) == n` for every integer. */
  lemma ParseIntToString(i: int)
    ensures ParseInt(IntToString(i)) == Num(i)
  {
    if i < 0 {
      var t := NatToString(-i);
      assert IntToString(i) == "-" + t;
      ParseNegativeDigits(t);
      NatToStringValue(-i);
    } else {
      var t := NatToString(i);
      assert IntToString(i) == t;
      ParseDigits(t);
      NatToStringValue(i);
    }
  }
}
