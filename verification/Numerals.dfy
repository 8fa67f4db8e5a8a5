/** Decimal and hexadecimal numerals of natural numbers. */
module Numerals {

  predicate IsDigit(c: char) {
    '0' <= c <= '9'
  }

  predicate AllDigits(s: string) {
    forall i :: 0 <= i < |s| ==> IsDigit(s[i])
  }

  function DecimalValue(digits: string): nat
    requires AllDigits(digits)
  {
    if digits == "" then 0
    else 10 * DecimalValue(digits[..|digits| - 1]) + (digits[|digits| - 1] - '0') as int
  }

  function Power10(k: nat): nat {
    if k == 0 then 1 else 10 * Power10(k - 1)
  }

  lemma {:induction false} FewDigitsAreSmall(digits: string)
    requires AllDigits(digits)
    ensures DecimalValue(digits) < Power10(|digits|)
  {
    if digits != "" {
      FewDigitsAreSmall(digits[..|digits| - 1]);
    }
  }

  lemma {:induction false} Power10Grows(j: nat, k: nat)
    requires j <= k
    ensures Power10(j) <= Power10(k)
    decreases k - j
  {
    if j < k {
      Power10Grows(j, k - 1);
    }
  }

  function HexDigit(d: int): char
    requires 0 <= d < 16
  {
    "0123456789abcdef"[d]
  }

  function HexValue(c: char): int {
    if '0' <= c <= '9' then (c - '0') as int
    else if 'a' <= c <= 'f' then (c - 'a') as int + 10
    else if 'A' <= c <= 'F' then (c - 'A') as int + 10
    else -1
  }

  function Decimal(n: nat): (s: string)
    ensures s != "" && AllDigits(s) && (|s| > 1 ==> s[0] != '0')
    ensures s[0] == '0' ==> n == 0
  {
    if n < 10 then [HexDigit(n)] else Decimal(n / 10) + [HexDigit(n % 10)]
  }

  lemma {:induction false} DecimalReadsBack(n: nat)
    ensures DecimalValue(Decimal(n)) == n
  {
    var s := Decimal(n);
    if n < 10 {
      assert s[..0] == "";
    } else {
      assert s[..|s| - 1] == Decimal(n / 10);
      DecimalReadsBack(n / 10);
    }
  }

  function Hex(n: nat): string {
    if n < 16 then [HexDigit(n)] else Hex(n / 16) + [HexDigit(n % 16)]
  }

  lemma {:induction false} HexIsInjective(m: nat, n: nat)
    requires Hex(m) == Hex(n)
    ensures m == n
  {
    hide HexDigit;
    var s := Hex(m);
    HexLength(m);
    HexLength(n);
    assert s[|s| - 1] == HexDigit(m % 16) && s[|s| - 1] == HexDigit(n % 16);
    HexDigitReadsBack(m % 16);
    HexDigitReadsBack(n % 16);
    if m >= 16 {
      assert s[..|s| - 1] == Hex(m / 16) && s[..|s| - 1] == Hex(n / 16);
      HexIsInjective(m / 16, n / 16);
    }
  }

  lemma HexDigitReadsBack(d: int)
    requires 0 <= d < 16
    ensures HexValue(HexDigit(d)) == d
  {
  }

  lemma HexLength(n: nat)
    ensures |Hex(n)| > 0 && (|Hex(n)| == 1 <==> n < 16)
  {
    if n >= 16 {
      HexLength(n / 16);
    }
  }
}
