/** Decimal digits, as sizes and timeouts are written. */
module Decimals {
  import opened Bytes

  predicate Digit(b: byte) { 48 <= b <= 57 }

  function Decimal(n: nat): seq<byte> {
    if n < 10 then [48 + n] else Decimal(n / 10) + [48 + n % 10]
  }

  function Power10(k: nat): nat { if k == 0 then 1 else 10 * Power10(k - 1) }

  lemma {:induction false} DecimalStartsWithDigit(n: nat)
    ensures |Decimal(n)| > 0 && Digit(Decimal(n)[0])
  {
    if n >= 10 {
      DecimalStartsWithDigit(n / 10);
    }
  }

  /** The number a text of digits stands for. */
  function Number(s: seq<byte>): int {
    if s == [] then 0 else Number(s[..|s| - 1]) * 10 + (s[|s| - 1] as int - 48)
  }

  lemma {:induction false} NumberOfDecimal(n: nat)
    ensures Number(Decimal(n)) == n
  {
    if n < 10 {
      assert Decimal(n)[..0] == [];
    } else {
      NumberOfDecimal(n / 10);
      assert Decimal(n)[..|Decimal(n)| - 1] == Decimal(n / 10);
    }
  }

  lemma {:induction false} DigitsOfDecimal(n: nat)
    ensures |Decimal(n)| > 0 && forall i :: 0 <= i < |Decimal(n)| ==> Digit(Decimal(n)[i])
  {
    if n >= 10 {
      DigitsOfDecimal(n / 10);
    }
  }

  lemma {:induction false} DecimalLength(n: nat, k: nat)
    requires k >= 1 && n < Power10(k)
    ensures |Decimal(n)| <= k
    decreases k
  {
    if n >= 10 {
      assert Power10(k) == 10 * Power10(k - 1);
      DecimalLength(n / 10, k - 1);
    }
  }
}
