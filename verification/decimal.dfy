/** Decimal notation: `%d` and `std::to_string` on the writing side, `std::stoi` on the reading side. */
module Decimal {
  import Division

  function Pow10(k: nat): (p: nat)
    ensures p >= 1
  {
    if k == 0 then 1 else 10 * Pow10(k - 1)
  }

  predicate IsDigit(c: char) {
    '0' <= c <= '9'
  }

  function Digit(d: nat): (c: char)
    requires d < 10
  {
    '0' + d as char
  }

  /** The digits of a natural number, without leading zeros. */
  function Digits(n: nat): (s: string)
    ensures |s| >= 1 && forall i :: 0 <= i < |s| ==> IsDigit(s[i])
  {
    if n < 10 then [Digit(n)] else Digits(n / 10) + [Digit(n % 10)]
  }

  /** Counted from the right, digit `j` is the one for the `j`-th power of ten. */
  lemma {:induction false} DigitAt(n: nat, j: nat)
    requires j < |Digits(n)|
    ensures Digits(n)[|Digits(n)| - 1 - j] as int == '0' as int + (n / Pow10(j)) % 10
  {
    if j > 0 {
      DigitAt(n / 10, j - 1);
      Division.DivideTwice(n, 10, Pow10(j - 1), Pow10(j));
    }
  }

  /** The number a string of digits denotes. */
  function ParseDigits(s: string): nat
    requires forall i :: 0 <= i < |s| ==> IsDigit(s[i])
  {
    if s == "" then 0 else
      assert IsDigit(s[|s| - 1]);
      10 * ParseDigits(s[..|s| - 1]) + (s[|s| - 1] as int - '0' as int)
  }

  function ToString(n: int): string {
    if n < 0 then "-" + Digits(-n) else Digits(n)
  }

  /** Inverse of `ToString`, on its range. */
  function Parse(s: string): int
    requires forall i :: 0 <= i < |s| && (i > 0 || s[i] != '-') ==> IsDigit(s[i])
  {
    if s != "" && s[0] == '-' then 0 - ParseDigits(s[1..]) else ParseDigits(s)
  }

  lemma {:induction false} ParseDigitsInvertsDigits(n: nat)
    ensures ParseDigits(Digits(n)) == n
  {
    if n < 10 {
      assert Digits(n)[..0] == "";
    } else {
      ParseDigitsInvertsDigits(n / 10);
      assert Digits(n)[..|Digits(n)| - 1] == Digits(n / 10);
    }
  }

  lemma ParseInvertsToString(n: int)
    ensures forall i :: 0 <= i < |ToString(n)| && (i > 0 || ToString(n)[i] != '-') ==> IsDigit(ToString(n)[i])
    ensures Parse(ToString(n)) == n
  {
    if n < 0 {
      assert ToString(n)[1..] == Digits(-n);
      ParseDigitsInvertsDigits(-n);
    } else {
      ParseDigitsInvertsDigits(n);
    }
  }

  /** A number needs at most `k` digits exactly when it is below the `k`-th power of ten. */
  lemma {:induction false} DigitCount(n: nat, k: nat)
    requires k >= 1
    ensures |Digits(n)| <= k <==> n < Pow10(k)
  {
    if n < 10 {
      assert Pow10(k) >= 10 by { assert Pow10(k) == 10 * Pow10(k - 1); }
    } else if k == 1 {
    } else {
      DigitCount(n / 10, k - 1);
      assert n < Pow10(k) <==> n / 10 < Pow10(k - 1);
    }
  }
}
