/** Non-negative integers as decimal text. */
module Decimals {

  /** A non-negative integer in a template literal. */
  function Decimal(n: nat): string {
    if n < 10 then [('0' as int + n) as char] else Decimal(n / 10) + [('0' as int + n % 10) as char]
  }

  predicate Digits(s: string) { forall k :: 0 <= k < |s| ==> '0' <= s[k] <= '9' }

  lemma {:induction false} DecimalDigits(n: nat)
    ensures Decimal(n) != "" && Digits(Decimal(n))
  {
    if n >= 10 {
      DecimalDigits(n / 10);
    }
  }

  lemma {:induction false} DecimalInjective(m: nat, n: nat)
    requires Decimal(m) == Decimal(n)
    ensures m == n
  {
    DecimalDigits(m / 10);
    DecimalDigits(n / 10);
    var d, e := Decimal(m), Decimal(n);
    assert d[|d| - 1] == ('0' as int + m % 10) as char;
    assert e[|e| - 1] == ('0' as int + n % 10) as char;
    if m >= 10 && n >= 10 {
      assert d[..|d| - 1] == Decimal(m / 10) && e[..|e| - 1] == Decimal(n / 10);
      DecimalInjective(m / 10, n / 10);
    }
  }

  /** `Number` of a digit string; leading zeros are allowed. */
  function ReadDecimal(s: string): nat
    requires Digits(s)
  {
    if s == "" then 0 else 10 * ReadDecimal(s[..|s| - 1]) + (s[|s| - 1] as int - '0' as int)
  }

  lemma {:induction false} ReadsItsDecimal(n: nat)
    ensures Digits(Decimal(n)) && ReadDecimal(Decimal(n)) == n
  {
    DecimalDigits(n);
    var d := Decimal(n);
    if n >= 10 {
      assert d[..|d| - 1] == Decimal(n / 10) && d[|d| - 1] as int == '0' as int + n % 10;
      ReadsItsDecimal(n / 10);
    } else {
      assert d[..0] == "" && d[0] as int == '0' as int + n;
    }
  }
}
