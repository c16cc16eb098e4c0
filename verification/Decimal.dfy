/** Integers written in decimal, and why two that differ are written differently. */
module Decimal {

  const DIGITS := "0123456789"

  function Natural(n: nat): (s: string)
    ensures |s| >= 1 && forall i :: 0 <= i < |s| ==> s[i] in DIGITS
  {
    if n < 10 then [DIGITS[n]] else Natural(n / 10) + [DIGITS[n % 10]]
  }

  function Integer(n: int): (s: string)
    ensures |s| >= 1 && forall i :: 0 <= i < |s| ==> s[i] in DIGITS || s[i] == '-'
  {
    if n < 0 then "-" + Natural(-n) else Natural(n)
  }

  lemma DigitsDiffer(a: nat, b: nat)
    requires a < 10 && b < 10 && DIGITS[a] == DIGITS[b]
    ensures a == b
  {
    assert DIGITS == ['0', '1', '2', '3', '4', '5', '6', '7', '8', '9'];
  }

  lemma {:induction false} NaturalInjective(a: nat, b: nat)
    requires Natural(a) == Natural(b)
    ensures a == b
  {
    if a < 10 && b < 10 {
      DigitsDiffer(a, b);
    } else if a >= 10 && b >= 10 {
      var p, q := Natural(a / 10), Natural(b / 10);
      assert p == (p + [DIGITS[a % 10]])[..|p|] && q == (q + [DIGITS[b % 10]])[..|q|];
      NaturalInjective(a / 10, b / 10);
      DigitsDiffer(a % 10, b % 10);
    }
  }

  /** What digits are worth, each place ten times the next. */
  function Worth(s: string): int {
    if s == "" then 0 else 10 * Worth(s[..|s| - 1]) + (s[|s| - 1] as int - '0' as int)
  }

  lemma DigitWorth(d: nat)
    requires d < 10
    ensures DIGITS[d] as int - '0' as int == d
    ensures d > 0 ==> DIGITS[d] != '0'
  {
    assert DIGITS == ['0', '1', '2', '3', '4', '5', '6', '7', '8', '9'];
  }

  /** The digits of a number are worth it, and the first is not a zero unless it is the only one. */
  lemma {:induction false} NaturalReads(n: nat)
    ensures Worth(Natural(n)) == n
    ensures n > 0 ==> Natural(n)[0] != '0'
  {
    DigitWorth(n % 10);
    hide DIGITS;
    if n < 10 {
      assert Natural(n)[..0] == "";
    } else {
      NaturalReads(n / 10);
      assert Natural(n)[..|Natural(n)| - 1] == Natural(n / 10);
    }
  }

  /** A sign stands in front of negative numbers only. */
  lemma IntegerReads(n: int)
    ensures n >= 0 ==> Worth(Integer(n)) == n
    ensures n < 0 ==> Integer(n)[0] == '-' && Worth(Integer(n)[1..]) == -n
  {
    NaturalReads(if n < 0 then -n else n);
    hide Natural, Worth;
  }

  lemma NoMinus(n: nat)
    ensures Natural(n)[0] != '-'
  {
    assert Natural(n)[0] in DIGITS;
    assert DIGITS == ['0', '1', '2', '3', '4', '5', '6', '7', '8', '9'];
  }

  /** The text after the sign is what was signed. */
  lemma SignedInjective(s: string, t: string)
    requires "-" + s == "-" + t
    ensures s == t
  {
    assert s == ("-" + s)[1..] && t == ("-" + t)[1..];
  }

  lemma IntegerInjective(a: int, b: int)
    ensures Integer(a) == Integer(b) <==> a == b
  {
    if Integer(a) == Integer(b) {
      var p, q := if a < 0 then -a else a, if b < 0 then -b else b;
      NoMinus(p);
      NoMinus(q);
      hide Natural;
      assert a < 0 <==> Integer(a)[0] == '-';
      assert b < 0 <==> Integer(b)[0] == '-';
      if a < 0 {
        SignedInjective(Natural(p), Natural(q));
      }
      NaturalInjective(p, q);
    }
  }
}
