/** Python's `str()` of an integer (optional minus sign, decimal digits
    without leading zeros) and the parser that undoes it. */
module Decimal {
  import opened Values

  predicate IsDigit(c: char) {
    '0' <= c <= '9'
  }

  predicate AllDigits(s: string) {
    forall i :: 0 <= i < |s| ==> IsDigit(s[i])
  }

  function DigitChar(d: nat): (c: char)
    requires d < 10
    ensures IsDigit(c) && (c as int) - ('0' as int) == d
  {
    (('0' as int) + d) as char
  }

  function DigitValue(c: char): (d: nat)
    requires IsDigit(c)
    ensures d < 10 && DigitChar(d) == c
  {
    (c as int) - ('0' as int)
  }

  /** The decimal digits of a natural number, most significant first. */
  function NatDigits(n: nat): (s: string)
    ensures |s| >= 1 && AllDigits(s)
    ensures s[0] == '0' ==> n == 0
    decreases n
  {
    if n < 10 then [DigitChar(n)] else NatDigits(n / 10) + [DigitChar(n % 10)]
  }

  /** Python's `str(n)` for an `int` n. */
  function PyStr(n: int): (s: string)
    ensures |s| >= 1
    ensures n >= 0 ==> AllDigits(s)
    ensures n < 0 ==> s[0] == '-' && AllDigits(s[1..])
  {
    if n < 0 then "-" + NatDigits(-n) else NatDigits(n)
  }

  /** The value of a string of decimal digits (the empty string reads as 0). */
  function ParseNat(s: string): nat
    requires AllDigits(s)
    decreases |s|
  {
    if s == [] then 0 else ParseNat(s[..|s| - 1]) * 10 + DigitValue(s[|s| - 1])
  }

  /** Reads back an optionally signed decimal integer; `None` for anything else. */
  function ParseInt(s: string): Option<int> {
    if |s| >= 2 && s[0] == '-' && AllDigits(s[1..]) then Some(-(ParseNat(s[1..]) as int))
    else if |s| >= 1 && AllDigits(s) then Some(ParseNat(s))
    else None
  }

  lemma {:induction false} ParseNatDigits(n: nat)
    ensures ParseNat(NatDigits(n)) == n
    decreases n
  {
    var s := NatDigits(n);
    if n >= 10 {
      assert s[..|s| - 1] == NatDigits(n / 10);
      ParseNatDigits(n / 10);
    }
  }

  /** `str` is undone by `ParseInt`: no two integers print the same. */
  lemma ParseIntPyStr(n: int)
    ensures ParseInt(PyStr(n)) == Some(n)
  {
    var s := PyStr(n);
    if n < 0 {
      var d := NatDigits(-n);
      assert s == "-" + d;
      assert s[1..] == d;
      ParseNatDigits(-n);
      assert ParseInt(s) == Some(-(ParseNat(d) as int));
    } else {
      assert s == NatDigits(n);
      assert IsDigit(s[0]);
      ParseNatDigits(n);
      assert ParseInt(s) == Some(ParseNat(s));
    }
  }

  lemma PyStrInjective(m: int, n: int)
    requires PyStr(m) == PyStr(n)
    ensures m == n
  {
    ParseIntPyStr(m);
    ParseIntPyStr(n);
  }
}
