/** Decimal numerals: what "%d" and _itoa_s(.., 10) print, and how a reader takes them back. */
module Decimal {
  import opened Powers

  function Digit(d: nat): char
    requires d < 10
  {
    (d + '0' as int) as char
  }

  predicate IsDigit(c: char) {
    '0' <= c <= '9'
  }

  function Print(n: nat): (s: string)
    ensures s != ""
    ensures forall c | c in s :: IsDigit(c)
  {
    if n < 10 then [Digit(n)] else Print(n / 10) + [Digit(n % 10)]
  }

  /** The number a digit string denotes. */
  function Read(s: string): nat
    requires forall c | c in s :: IsDigit(c)
  {
    if s == "" then 0
    else
      assert IsDigit(s[|s| - 1]);
      Read(s[..|s| - 1]) * 10 + (s[|s| - 1] as int - '0' as int)
  }

  lemma {:induction false} ReadPrint(n: nat)
    ensures Read(Print(n)) == n
  {
    if n >= 10 {
      ReadPrint(n / 10);
      assert Print(n)[..|Print(n)| - 1] == Print(n / 10);
    }
  }

  /** A numeral has at most k digits exactly when the number is below 10^k. */
  lemma {:induction false} DigitCount(n: nat, k: nat)
    requires k > 0
    ensures |Print(n)| <= k <==> n < Pow(10, k)
  {
    if n < 10 {
      Pow10AtLeast(k);
    } else if k > 1 {
      DigitCount(n / 10, k - 1);
    } else {
      assert Pow(10, 1) == 10 by { assert Pow(10, 0) == 1; }
    }
  }

  lemma {:induction false} Pow10AtLeast(k: nat)
    requires k > 0
    ensures Pow(10, k) >= 10
  {
    if k > 1 {
      Pow10AtLeast(k - 1);
    }
  }

  // ----- _itoa_s -----

  function PrintInt(v: int): string {
    if v < 0 then "-" + Print(-v) else Print(v)
  }

  /** The conversion of a 64-bit row count to the 32-bit `int` it is assigned to. */
  function ToInt32(n: nat): int {
    var low := n % 0x1_0000_0000;
    if low < 0x8000_0000 then low else low - 0x1_0000_0000
  }

  /** _itoa_s into `size` bytes: the numeral and its NUL have to fit. */
  predicate Fits(v: int, size: nat) {
    |PrintInt(v)| < size
  }

  /** Into the eight bytes of SUM_LENGTH: at most seven digits, or a sign and six. */
  lemma FitsEight(v: int)
    ensures Fits(v, 8) <==> -999999 <= v <= 9999999
  {
    assert Pow(10, 7) == 10000000 && Pow(10, 6) == 1000000 by {
      assert Pow(10, 3) == 1000;
    }
    if v < 0 {
      DigitCount(-v, 6);
    } else {
      DigitCount(v, 7);
    }
  }

  lemma FirstIsDigit(n: nat)
    ensures Print(n)[0] != '-'
  {
    assert Print(n)[0] in Print(n);
  }

  /** An integer prints as the numeral of a natural number only when it is that number. */
  lemma PrintIntIsPrint(v: int, n: nat)
    ensures PrintInt(v) == Print(n) <==> v == n
  {
    FirstIsDigit(n);
    ReadPrint(n);
    if v >= 0 {
      ReadPrint(v);
    }
  }

  lemma NumeralPlain(v: int)
    ensures '\0' !in PrintInt(v)
  {
    assert !IsDigit('\0');
  }

  // ----- the digits themselves -----

  /** The k-th digit from the end is the one for n / 10^k, and the first is not a zero. */
  lemma {:induction false} DigitAt(n: nat, k: nat)
    requires k < |Print(n)|
    ensures Pow(10, k) > 0 && Print(n)[|Print(n)| - 1 - k] == "0123456789"[n / Pow(10, k) % 10]
    ensures n > 0 ==> Print(n)[0] != '0'
  {
    PowPositive(10, k);
    TenDigits(n % 10);
    if k == 0 {
      assert n / Pow(10, 0) == n;
      if n >= 10 {
        DigitAt(n / 10, 0);
      } else {
        TenDigits(n);
      }
    } else {
      DigitAt(n / 10, k - 1);
      PowPositive(10, k - 1);
      DivModTwice(n, 10, Pow(10, k - 1));
    }
  }

  lemma TenDigits(d: nat)
    requires d < 10
    ensures Digit(d) == "0123456789"[d]
    ensures Digit(d) == '0' <==> d == 0
  {
  }

  /** A sign only in front of negative numbers. */
  lemma SignedDigits(v: int)
    ensures v < 0 ==> PrintInt(v) == ['-'] + Print(-v)
    ensures v >= 0 ==> PrintInt(v) == Print(v)
  {
  }

  /** The 32-bit number with the same low bits. */
  lemma WrapsAround(n: nat)
    ensures -0x8000_0000 <= ToInt32(n) < 0x8000_0000
    ensures (n - ToInt32(n)) % 0x1_0000_0000 == 0
  {
  }
}
