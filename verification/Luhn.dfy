// The check of credit card numbers: Luhn's sum over the digits, Annex B of ISO/IEC 7812-1.
module Luhn {
  // ---------------------------------------------------------------- the check

  predicate IsDigit(c: char) {
    '0' <= c <= '9'
  }

  predicate IsSeparator(c: char) {
    c == ' ' || c == '-'
  }

  function ToInt(c: char): int
    requires IsDigit(c)
  {
    c as int - '0' as int
  }

  predicate AllDigits(s: string) {
    forall i :: 0 <= i < |s| ==> IsDigit(s[i])
  }

  function OnlyDigits(s: string): (digits: string)
    ensures AllDigits(digits)
  {
    if s == [] then [] else OnlyDigits(s[..|s| - 1]) + if IsDigit(s[|s| - 1]) then [s[|s| - 1]] else []
  }

  method CreditCard(value: string) returns (valid: bool)
    ensures valid <==> Accepted(value)
  {
    for i := 0 to |value|
      invariant forall k :: 0 <= k < i ==> IsDigit(value[k]) || IsSeparator(value[k])
    {
      if !IsDigit(value[i]) && !IsSeparator(value[i]) {
        return false;
      }
    }
    var digits := OnlyDigits(value);
    var nCheck, nDigit, bEven := 0, 0, false;
    var n := |digits| - 1;
    while n >= 0
      invariant -1 <= n < |digits|
      invariant nCheck == SumFrom(digits, n + 1)
      invariant bEven == ((|digits| - 1 - n) % 2 == 1)
    {
      nDigit := ToInt(digits[n]);
      if bEven {
        nDigit := nDigit * 2;
        if nDigit > 9 {
          nDigit := nDigit - 9;
        }
      }
      nCheck := nCheck + nDigit;
      bEven := !bEven;
      n := n - 1;
    }
    valid := nCheck % 10 == 0;
  }

  // ---------------------------------------------------------------- what is accepted

  // The value of a digit is its place in the list of all.
  lemma DigitValue(c: char)
    ensures IsDigit(c) <==> c in "0123456789"
    ensures IsDigit(c) ==> 0 <= ToInt(c) <= 9 && "0123456789"[ToInt(c)] == c
  {
    if IsDigit(c) {
      assert "0123456789"[ToInt(c)] == c;
    }
  }

  // The sum of the digits of twice a digit.
  function Doubled(d: int): int
    requires 0 <= d <= 9
  {
    (2 * d) / 10 + (2 * d) % 10
  }

  // Counted from the right, every second digit is doubled.
  function Term(digits: string, i: nat): int
    requires AllDigits(digits) && i < |digits|
  {
    if (|digits| - 1 - i) % 2 == 1 then Doubled(ToInt(digits[i])) else ToInt(digits[i])
  }

  function SumFrom(digits: string, k: nat): int
    requires AllDigits(digits) && k <= |digits|
    decreases |digits| - k
  {
    if k == |digits| then 0 else Term(digits, k) + SumFrom(digits, k + 1)
  }

  // The same told from the right: the last digit as it is, the one before it doubled, and so on; of a product with
  // two digits both are counted.
  ghost function SumFromRight(digits: string, double: bool): int
    requires AllDigits(digits)
  {
    if digits == [] then 0
    else
      var l := |digits| - 1;
      var d := ToInt(digits[l]);
      SumFromRight(digits[..l], !double) + if !double then d else if d < 5 then 2 * d else 1 + (2 * d - 10)
  }

  lemma TermFromRight(digits: string, rest: string)
    requires digits != [] && AllDigits(digits) && AllDigits(digits + rest)
    ensures var d := ToInt(digits[|digits| - 1]);
      Term(digits + rest, |digits| - 1) == if |rest| % 2 == 0 then d else if d < 5 then 2 * d else 1 + (2 * d - 10)
  {
    assert (digits + rest)[|digits| - 1] == digits[|digits| - 1];
  }

  lemma {:induction false} SumsAgree(digits: string, rest: string)
    requires AllDigits(digits + rest) && AllDigits(digits)
    ensures SumFrom(digits + rest, 0) == SumFromRight(digits, |rest| % 2 == 1) + SumFrom(digits + rest, |digits|)
    decreases |digits|
  {
    if digits != [] {
      var l := |digits| - 1;
      var rest' := [digits[l]] + rest;
      assert digits[..l] + rest' == digits + rest;
      assert |rest'| % 2 == 1 <==> |rest| % 2 == 0;
      SumsAgree(digits[..l], rest');
      TermFromRight(digits, rest);
    }
  }

  // The sum that is checked is the one told from the right.
  lemma SumIsFromRight(digits: string)
    requires AllDigits(digits)
    ensures SumFrom(digits, 0) == SumFromRight(digits, false)
  {
    assert digits + [] == digits;
    SumsAgree(digits, []);
  }

  predicate Allowed(value: string) {
    forall i :: 0 <= i < |value| ==> IsDigit(value[i]) || IsSeparator(value[i])
  }

  predicate Separators(s: string) {
    forall i :: 0 <= i < |s| ==> IsSeparator(s[i])
  }

  predicate Accepted(value: string) {
    Allowed(value) && SumFrom(OnlyDigits(value), 0) % 10 == 0
  }

  lemma AllowedAppend(s: string, t: string)
    ensures Allowed(s + t) <==> Allowed(s) && Allowed(t)
  {
    if Allowed(s + t) {
      assert forall i :: 0 <= i < |s| ==> s[i] == (s + t)[i];
      assert forall i :: 0 <= i < |t| ==> t[i] == (s + t)[|s| + i];
    }
  }

  lemma AllowedAround(x: string, m: string, y: string)
    requires Allowed(m)
    ensures Allowed(x + m + y) <==> Allowed(x) && Allowed(y)
  {
    AllowedAppend(x + m, y);
    AllowedAppend(x, m);
  }

  lemma {:induction false} DigitsAppend(s: string, t: string)
    ensures OnlyDigits(s + t) == OnlyDigits(s) + OnlyDigits(t)
  {
    if t == [] {
      assert s + t == s;
    } else {
      DigitsAppend(s, t[..|t| - 1]);
      assert (s + t)[..|s + t| - 1] == s + t[..|t| - 1];
    }
  }

  lemma {:induction false} NoDigits(s: string)
    requires Separators(s)
    ensures OnlyDigits(s) == []
  {
    if s != [] {
      NoDigits(s[..|s| - 1]);
    }
  }

  lemma OneDigit(c: char)
    requires IsDigit(c)
    ensures OnlyDigits([c]) == [c]
  {
    assert OnlyDigits([c][..0]) == [];
  }

  // Spaces and dashes, wherever they stand, make no difference.
  lemma SeparatorsIgnored(x: string, seps: string, y: string)
    requires Separators(seps)
    ensures Accepted(x + seps + y) <==> Accepted(x + y)
  {
    AllowedAround(x, seps, y);
    AllowedAppend(x, y);
    NoDigits(seps);
    DigitsAppend(x + seps, y);
    DigitsAppend(x, seps);
    DigitsAppend(x, y);
    assert OnlyDigits(x) + [] == OnlyDigits(x);
  }

  // ---------------------------------------------------------------- errors are found

  // One digit counts in one place only.
  lemma {:induction false} SumOfOne(s: string, i: nat, c: char, k: nat)
    requires AllDigits(s) && i < |s| && IsDigit(c) && k <= |s|
    ensures AllDigits(s[i := c])
    ensures SumFrom(s[i := c], k) - SumFrom(s, k) == if k <= i then Term(s[i := c], i) - Term(s, i) else 0
    decreases |s| - k
  {
    if k < |s| {
      SumOfOne(s, i, c, k + 1);
    }
  }

  lemma DoubledApart(a: int, b: int)
    requires 0 <= a <= 9 && 0 <= b <= 9 && a != b
    ensures (Doubled(a) - Doubled(b)) % 10 != 0
  {
  }

  lemma TermsApart(s: string, i: nat, c: char)
    requires AllDigits(s) && i < |s| && IsDigit(c) && c != s[i] && AllDigits(s[i := c])
    ensures (Term(s[i := c], i) - Term(s, i)) % 10 != 0
  {
    if (|s| - 1 - i) % 2 == 1 {
      DoubledApart(ToInt(c), ToInt(s[i]));
    } else {
      PlainApart(ToInt(c), ToInt(s[i]));
    }
  }

  lemma PlainApart(a: int, b: int)
    requires 0 <= a <= 9 && 0 <= b <= 9 && a != b
    ensures (a - b) % 10 != 0
  {
  }

  lemma DigitsAround(x: string, c: char, y: string)
    requires IsDigit(c)
    ensures OnlyDigits(x + [c] + y) == OnlyDigits(x) + [c] + OnlyDigits(y)
    ensures Allowed(x + [c] + y) <==> Allowed(x) && Allowed(y)
  {
    AllowedAround(x, [c], y);
    DigitsAppend(x + [c], y);
    DigitsAppend(x, [c]);
    OneDigit(c);
  }

  lemma Replaced(l: string, a: char, b: char, r: string)
    ensures (l + [a] + r)[|l| := b] == l + [b] + r
  {
  }

  lemma OneChanges(l: string, a: char, b: char, r: string)
    requires AllDigits(l) && AllDigits(r) && IsDigit(a) && IsDigit(b) && a != b
    ensures (SumFrom(l + [b] + r, 0) - SumFrom(l + [a] + r, 0)) % 10 != 0
  {
    Replaced(l, a, b, r);
    SumOfOne(l + [a] + r, |l|, b, 0);
    TermsApart(l + [a] + r, |l|, b);
  }

  // A number that is accepted is not accepted with any one digit changed.
  lemma OneDigitChanged(x: string, a: char, b: char, y: string)
    requires IsDigit(a) && IsDigit(b) && a != b && Accepted(x + [a] + y)
    ensures !Accepted(x + [b] + y)
  {
    DigitsAround(x, a, y);
    DigitsAround(x, b, y);
    OneChanges(OnlyDigits(x), a, b, OnlyDigits(y));
  }

  // Two neighbouring digits that are swapped, whatever separates them.
  lemma NeighboursSwapped(x: string, a: char, seps: string, b: char, y: string)
    requires IsDigit(a) && IsDigit(b) && Separators(seps)
    requires Accepted(x + [a] + seps + [b] + y)
    ensures Accepted(x + [b] + seps + [a] + y) <==> a == b || (a == '0' && b == '9') || (a == '9' && b == '0')
  {
    SwappedDigits(x, a, seps, b, y);
    SwappedDigits(x, b, seps, a, y);
    var l, r := OnlyDigits(x), OnlyDigits(y);
    var gain := Doubled(ToInt(a)) + ToInt(b) - Doubled(ToInt(b)) - ToInt(a);
    SwappedSums(l, a, b, r);
    SwappedTerms(ToInt(a), ToInt(b));
    Shifted(SumFrom(l + [a] + [b] + r, 0), SumFrom(l + [b] + [a] + r, 0), gain);
  }

  lemma Shifted(sum: int, sum': int, gain: int)
    requires sum % 10 == 0 && (sum - sum' == gain || sum' - sum == gain)
    ensures sum' % 10 == 0 <==> gain % 10 == 0
  {
  }

  // Of two neighbours one is doubled.
  lemma NeighbourTerms(s: string, i: nat)
    requires i + 1 < |s|
    ensures (|s| - 1 - i) % 2 == 1 <==> (|s| - 1 - (i + 1)) % 2 == 0
  {
  }

  lemma SwappedSums(l: string, a: char, b: char, r: string)
    requires AllDigits(l) && AllDigits(r) && IsDigit(a) && IsDigit(b)
    ensures var gain := Doubled(ToInt(a)) + ToInt(b) - Doubled(ToInt(b)) - ToInt(a);
      SumFrom(l + [a] + [b] + r, 0) - SumFrom(l + [b] + [a] + r, 0) == gain ||
          SumFrom(l + [b] + [a] + r, 0) - SumFrom(l + [a] + [b] + r, 0) == gain
  {
    var s, t := l + [a] + [b] + r, l + [b] + [b] + r;
    assert l + [a] + [b] + r == l + [a] + ([b] + r) && l + [b] + [b] + r == l + [b] + ([b] + r);
    Replaced(l, a, b, [b] + r);
    Replaced(l + [b], b, a, r);
    SumOfOne(s, |l|, b, 0);
    SumOfOne(t, |l| + 1, a, 0);
    NeighbourTerms(s, |l|);
  }

  lemma SwappedDigits(x: string, a: char, seps: string, b: char, y: string)
    requires IsDigit(a) && IsDigit(b) && Separators(seps)
    ensures OnlyDigits(x + [a] + seps + [b] + y) == OnlyDigits(x) + [a] + [b] + OnlyDigits(y)
    ensures Allowed(x + [a] + seps + [b] + y) <==> Allowed(x) && Allowed(y)
  {
    AllowedAround(x + [a] + seps, [b], y);
    AllowedAround(x, [a], seps);
    DigitsAround(x + [a] + seps, b, y);
    DigitsAround(x, a, seps);
    NoDigits(seps);
  }

  lemma SwappedTerms(a: int, b: int)
    requires 0 <= a <= 9 && 0 <= b <= 9
    ensures (Doubled(a) + b - Doubled(b) - a) % 10 == 0 <==> a == b || (a == 0 && b == 9) || (a == 9 && b == 0)
  {
  }

  // Every number has one last digit that makes it acceptable, and only one.
  lemma CheckDigit(x: string) returns (c: char)
    requires Allowed(x)
    ensures IsDigit(c) && forall d :: IsDigit(d) ==> (Accepted(x + [d]) <==> d == c)
  {
    var sum := SumFrom(OnlyDigits(x) + ['0'], 0);
    c := ('0' as int + (10 - sum % 10) % 10) as char;
    forall d | IsDigit(d)
      ensures Accepted(x + [d]) <==> d == c
    {
      LastDigitCounts(x, d);
      assert (sum + ToInt(d)) % 10 == 0 <==> ToInt(d) == (10 - sum % 10) % 10;
    }
  }

  lemma LastDigitCounts(x: string, d: char)
    requires Allowed(x) && IsDigit(d)
    ensures Accepted(x + [d]) <==> (SumFrom(OnlyDigits(x) + ['0'], 0) + ToInt(d)) % 10 == 0
  {
    DigitsAppend(x, [d]);
    OneDigit(d);
    AllowedAppend(x, [d]);
    LastTerm(OnlyDigits(x), d);
    assert SumFrom(OnlyDigits(x + [d]), 0) == SumFrom(OnlyDigits(x) + ['0'], 0) + ToInt(d);
  }

  lemma LastTerm(l: string, d: char)
    requires AllDigits(l) && IsDigit(d)
    ensures SumFrom(l + [d], 0) == SumFrom(l + ['0'], 0) + ToInt(d)
  {
    var s := l + ['0'];
    assert s[|l| := d] == l + [d];
    SumOfOne(s, |l|, d, 0);
    assert (|s| - 1 - |l|) % 2 == 0;
  }
}
