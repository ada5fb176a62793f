/** Natural numbers in decimal. */
module Decimals {

  predicate IsDigit(c: char) {
    '0' <= c <= '9'
  }

  function DigitChar(d: nat): (c: char)
    requires d < 10
    ensures IsDigit(c) && c as int == 0x30 + d
  {
    ('0' as int + d) as char
  }

  function DigitValue(c: char): (d: nat)
    requires IsDigit(c)
    ensures d < 10 && DigitChar(d) == c && c as int == 0x30 + d
  {
    c as int - '0' as int
  }

  function Decimal(n: nat): (s: string)
    ensures s != [] && forall i :: 0 <= i < |s| ==> IsDigit(s[i])
  {
    if n < 10 then [DigitChar(n)] else Decimal(n / 10) + [DigitChar(n % 10)]
  }

  lemma {:induction false} DecimalIsInjective(n: nat, m: nat)
    requires Decimal(n) == Decimal(m)
    ensures n == m
    decreases n
  {
    var s := Decimal(n);
    assert DigitValue(s[|s| - 1]) == n % 10 == m % 10;
    if n >= 10 {
      assert m >= 10 by {
        assert |Decimal(n / 10)| >= 1;
      }
      assert s[..|s| - 1] == Decimal(n / 10) == Decimal(m / 10);
      DecimalIsInjective(n / 10, m / 10);
    }
  }

  lemma AppendDigit(n: nat, d: nat)
    requires n > 0 && d < 10
    ensures Decimal(10 * n + d) == Decimal(n) + [DigitChar(d)]
  {
  }

  /** Text after a positive number reads as one number. */
  lemma {:induction false} DecimalsJoin(n: nat, m: nat) returns (k: nat)
    requires n > 0
    ensures k >= n && Decimal(k) == Decimal(n) + Decimal(m)
    decreases m
  {
    if m < 10 {
      AppendDigit(n, m);
      k := 10 * n + m;
    } else {
      k := DecimalsJoin(n, m / 10);
      AppendDigit(k, m % 10);
      k := 10 * k + m % 10;
      assert Decimal(n) + Decimal(m) == Decimal(n) + Decimal(m / 10) + [DigitChar(m % 10)];
    }
  }

  /** Where the leading digits of a text end. */
  lemma {:induction false} DigitsEnd(d: string, r: string, d': string, r': string)
    requires d + r == d' + r'
    requires (forall i :: 0 <= i < |d| ==> IsDigit(d[i])) && (forall i :: 0 <= i < |d'| ==> IsDigit(d'[i]))
    requires (r == [] || !IsDigit(r[0])) && (r' == [] || !IsDigit(r'[0]))
    ensures d == d' && r == r'
    decreases |d|
  {
    assert d + r != [] ==> (d + r)[0] == (d' + r')[0];
    if d != [] && d' != [] {
      assert (d + r)[1..] == d[1..] + r && (d' + r')[1..] == d'[1..] + r';
      DigitsEnd(d[1..], r, d'[1..], r');
      assert d == [d[0]] + d[1..] && d' == [d'[0]] + d'[1..];
    } else {
      assert [] + r == r && [] + r' == r';
    }
  }

  /** The number that digits make. */
  function DecimalValue(digits: string): nat
    requires forall i :: 0 <= i < |digits| ==> IsDigit(digits[i])
  {
    if digits == [] then 0 else DecimalValue(digits[..|digits| - 1]) * 10 + DigitValue(digits[|digits| - 1])
  }

  /** One digit more makes the number ten times as large, and adds the digit. */
  lemma DecimalValueGrows(digits: string, c: char)
    requires IsDigit(c) && forall i :: 0 <= i < |digits| ==> IsDigit(digits[i])
    ensures DecimalValue(digits + [c]) == 10 * DecimalValue(digits) + (c as int - 0x30)
  {
    assert (digits + [c])[..|digits|] == digits;
  }

  lemma {:induction false} DecimalIsRead(n: nat)
    ensures DecimalValue(Decimal(n)) == n
  {
    var s := Decimal(n);
    if n >= 10 {
      DecimalIsRead(n / 10);
      assert s[..|s| - 1] == Decimal(n / 10);
    } else {
      assert s[..0] == [];
    }
  }
}
