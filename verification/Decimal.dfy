/**
  Decimal text of integers, as printed by `str` in Python, by `String` in JavaScript and by a
  SQL cast to VARCHAR, and the reading of such text.
 */
module Decimal {
  import opened Options

  predicate IsDigit(c: char) {
    '0' <= c <= '9'
  }

  predicate AllDigits(s: string) {
    forall i :: 0 <= i < |s| ==> IsDigit(s[i])
  }

  function Digit(d: nat): (c: char)
    requires d < 10
    ensures IsDigit(c) && DigitValue(c) == d
  {
    ('0' as int + d) as char
  }

  function DigitValue(c: char): nat
    requires IsDigit(c)
  {
    c as int - '0' as int
  }

  function OfNat(n: nat): (s: string)
    ensures s != [] && AllDigits(s)
  {
    if n < 10 then [Digit(n)] else OfNat(n / 10) + [Digit(n % 10)]
  }

  function OfInt(n: int): (s: string)
    ensures s != [] && (IsDigit(s[0]) || s[0] == '-')
  {
    if n < 0 then "-" + OfNat(-n) else OfNat(n)
  }

  function ToNat(s: string): nat
    requires AllDigits(s)
  {
    if s == [] then 0 else 10 * ToNat(s[..|s| - 1]) + DigitValue(s[|s| - 1])
  }

  /** An optional minus sign and at least one digit. */
  predicate IsInt(s: string) {
    s != [] && if s[0] == '-' then |s| > 1 && AllDigits(s[1..]) else AllDigits(s)
  }

  function ToInt(s: string): Option<int> {
    if !IsInt(s) then None
    else if s[0] == '-' then Some(-(ToNat(s[1..]) as int))
    else Some(ToNat(s))
  }

  lemma {:induction false} ToNatOfNat(n: nat)
    ensures ToNat(OfNat(n)) == n
  {
    if n >= 10 {
      var s := OfNat(n);
      assert s[..|s| - 1] == OfNat(n / 10);
      ToNatOfNat(n / 10);
    }
  }

  lemma ToIntOfInt(n: int)
    ensures ToInt(OfInt(n)) == Some(n)
  {
    ToNatOfNat(if n < 0 then -n else n);
    if n < 0 {
      assert OfInt(n)[1..] == OfNat(-n);
    }
  }

  /** Different integers have different decimal texts. */
  lemma OfIntInjective(m: int, n: int)
    requires OfInt(m) == OfInt(n)
    ensures m == n
  {
    ToIntOfInt(m);
    ToIntOfInt(n);
  }

  function PowerOfTen(k: nat): (p: nat)
    ensures p >= 1
  {
    if k == 0 then 1 else 10 * PowerOfTen(k - 1)
  }

  lemma {:induction false} OfNatLength(n: nat, k: nat)
    requires k > 0 && n < PowerOfTen(k)
    ensures |OfNat(n)| <= k
  {
    if n >= 10 {
      OfNatLength(n / 10, k - 1);
    }
  }

  /** A 32-bit integer prints to at most eleven characters. */
  lemma Int32Length(n: int)
    requires -0x8000_0000 <= n < 0x8000_0000
    ensures |OfInt(n)| <= 11
  {
    assert PowerOfTen(10) == 10_000_000_000 by {
      assert PowerOfTen(5) == 100_000;
    }
    OfNatLength(if n < 0 then -n else n, 10);
  }
}
