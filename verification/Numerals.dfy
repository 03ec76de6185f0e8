// Decimal numerals, as the feature names of numbered features end in.
module Numerals {

  function Digit(d: nat): (c: char)
    requires d < 10
    ensures '0' <= c <= '9'
  {
    '0' + d as char
  }

  function Decimal(n: nat): (s: string)
    ensures |s| >= 1
  {
    if n < 10 then [Digit(n)] else Decimal(n / 10) + [Digit(n % 10)]
  }

  lemma {:induction false} DecimalInjective(m: nat, n: nat)
    requires Decimal(m) == Decimal(n)
    ensures m == n
  {
    var s, t := Decimal(m), Decimal(n);
    assert s[|s| - 1] == Digit(m % 10) && t[|t| - 1] == Digit(n % 10);
    assert s[..|s| - 1] == t[..|t| - 1];
    if m >= 10 && n >= 10 {
      assert s[..|s| - 1] == Decimal(m / 10) && t[..|t| - 1] == Decimal(n / 10);
      DecimalInjective(m / 10, n / 10);
    }
  }

  // The digits as they are spelt.
  lemma DigitsSpelt(d: nat)
    requires d < 10
    ensures Digit(d) == "0123456789"[d]
  {
    assert "0123456789"[d] in "0123456789";
  }

  // The number a numeral stands for.
  function ReadDecimal(s: string): nat
    requires forall i :: 0 <= i < |s| ==> '0' <= s[i] <= '9'
  {
    if s == [] then 0 else 10 * ReadDecimal(s[..|s| - 1]) + (s[|s| - 1] as int - '0' as int)
  }

  lemma {:induction false} DecimalRead(n: nat)
    ensures (forall i :: 0 <= i < |Decimal(n)| ==> '0' <= Decimal(n)[i] <= '9') && ReadDecimal(Decimal(n)) == n
  {
    var s := Decimal(n);
    assert s[|s| - 1] == Digit(n % 10);
    if n < 10 {
      assert s[..0] == [];
    } else {
      DecimalRead(n / 10);
      assert s[..|s| - 1] == Decimal(n / 10);
    }
  }
}
