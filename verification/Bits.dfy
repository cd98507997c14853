/** The bitwise operators on natural numbers, and what they are on the masks and disjoint fields the macros use. */
module Bits {
  import opened Powers

  function BitOr(a: nat, b: nat): nat
    decreases a + b
  {
    if a == 0 && b == 0 then 0
    else 2 * BitOr(a / 2, b / 2) + if a % 2 == 1 || b % 2 == 1 then 1 else 0
  }

  function BitAnd(a: nat, b: nat): nat
    decreases a + b
  {
    if a == 0 && b == 0 then 0
    else 2 * BitAnd(a / 2, b / 2) + if a % 2 == 1 && b % 2 == 1 then 1 else 0
  }

  /** x << k */
  function Shl(x: nat, k: nat): nat {
    x * Pow(2, k)
  }

  /** x >> k, arithmetic: rounding down. */
  function Shr(x: int, k: nat): int {
    PowPositive(2, k);
    x / Pow(2, k)
  }

  lemma {:induction false} OrCommutes(a: nat, b: nat)
    ensures BitOr(a, b) == BitOr(b, a)
    decreases a + b
  {
    if a != 0 || b != 0 {
      OrCommutes(a / 2, b / 2);
    }
  }

  lemma {:induction false} OrZero(a: nat)
    ensures BitOr(a, 0) == a
  {
    if a != 0 {
      OrZero(a / 2);
    }
  }

  lemma PowDouble(e: nat)
    requires e > 0
    ensures Pow(2, e) == 2 * Pow(2, e - 1)
  {
  }

  lemma HalfPow(x: nat, k: nat)
    requires k > 0
    ensures x * Pow(2, k) == 2 * (x * Pow(2, k - 1))
  {
  }

  lemma OrStep(full: nat, half: nat, low: nat)
    requires full == 2 * half
    ensures BitOr(full, low) == 2 * BitOr(half, low / 2) + low % 2
  {
    if full == 0 && low == 0 {
      assert BitOr(0, 0) == 0;
    }
  }

  /** Fields that do not overlap: `|` is `+`. */
  lemma {:induction false} OrDisjoint(high: nat, low: nat, k: nat)
    requires low < Pow(2, k)
    ensures BitOr(Shl(high, k), low) == Shl(high, k) + low
    ensures BitOr(low, Shl(high, k)) == Shl(high, k) + low
    decreases k
  {
    OrCommutes(Shl(high, k), low);
    if k == 0 {
      OrZero(high);
    } else {
      PowDouble(k);
      HalfPow(high, k);
      OrStep(Shl(high, k), Shl(high, k - 1), low);
      OrDisjoint(high, low / 2, k - 1);
    }
  }

  /** & with the k low bits set */
  lemma {:induction false} AndLow(a: nat, k: nat)
    ensures Pow(2, k) >= 1 && BitAnd(a, Pow(2, k) - 1) == a % Pow(2, k)
  {
    PowPositive(2, k);
    if k == 0 {
      AndZero(a);
    } else {
      AndLow(a / 2, k - 1);
      DivModTwice(a, 2, Pow(2, k - 1));
      assert (Pow(2, k) - 1) / 2 == Pow(2, k - 1) - 1;
    }
  }

  lemma {:induction false} AndZero(a: nat)
    ensures BitAnd(a, 0) == 0
  {
    if a != 0 {
      AndZero(a / 2);
    }
  }

  lemma {:induction false} PowMonotone(k: nat, w: nat)
    requires k <= w
    ensures 1 <= Pow(2, k) <= Pow(2, w)
    ensures Pow(2, w) % Pow(2, k) == 0
    decreases w
  {
    PowPositive(2, k);
    if k < w {
      PowMonotone(k, w - 1);
      var l, m := Pow(2, k), Pow(2, w - 1) / Pow(2, k);
      assert Pow(2, w) == l * (2 * m);
      DivMod(0, 2 * m, l);
    } else {
      DivMod(0, 1, Pow(2, k));
    }
  }

  /** The order alone, without the division. */
  lemma PowOrdered(k: nat, w: nat)
    requires k <= w
    ensures 1 <= Pow(2, k) <= Pow(2, w)
  {
    PowMonotone(k, w);
  }

  /** & with all bits of the word set */
  lemma AndAll(a: nat, w: nat, l: nat)
    requires a < Pow(2, w) && l == 1
    ensures Pow(2, w) >= l && BitAnd(a, Pow(2, w) - l) == a - a % l
  {
    AndLow(a, w);
    DivMod(a, 0, Pow(2, w));
    DivMod(0, a, 1);
  }

  /** & with all bits of a w-bit word set except the k low ones */
  lemma {:induction false} AndHigh(a: nat, w: nat, k: nat)
    requires a < Pow(2, w) && k <= w
    ensures 1 <= Pow(2, k) <= Pow(2, w)
    ensures BitAnd(a, Pow(2, w) - Pow(2, k)) == a - a % Pow(2, k)
    decreases w
  {
    if k == 0 {
      AndAll(a, w, Pow(2, 0));
    } else {
      PowDouble(w);
      AndHigh(a / 2, w - 1, k - 1);
      AndHighNext(a, w, k);
    }
  }

  lemma AndHighNext(a: nat, w: nat, k: nat)
    requires 0 < k <= w && 1 <= Pow(2, k - 1) <= Pow(2, w - 1)
    requires BitAnd(a / 2, Pow(2, w - 1) - Pow(2, k - 1)) == a / 2 - a / 2 % Pow(2, k - 1)
    ensures 1 <= Pow(2, k) <= Pow(2, w)
    ensures BitAnd(a, Pow(2, w) - Pow(2, k)) == a - a % Pow(2, k)
  {
    PowDouble(w);
    PowDouble(k);
    HighStep(a, Pow(2, w - 1) - Pow(2, k - 1), Pow(2, k - 1), Pow(2, w) - Pow(2, k), Pow(2, k));
  }

  lemma HighStep(a: nat, half: nat, q: nat, mask: nat, l: nat)
    requires q >= 1 && l == 2 * q && mask == 2 * half
    requires BitAnd(a / 2, half) == a / 2 - a / 2 % q
    ensures BitAnd(a, mask) == a - a % l
  {
    AndEven(a, half);
    DivModTwice(a, 2, q);
  }

  lemma AndEven(a: nat, half: nat)
    ensures BitAnd(a, 2 * half) == 2 * BitAnd(a / 2, half)
  {
    assert 2 * half / 2 == half;
    if a == 0 && half == 0 {
      assert BitAnd(0, 0) == 0;
    }
  }

  // ----- MY_ALIGN on w-bit unsigned words -----

  /** ((A) + (L) - 1) & ~((L) - 1) for L = 2^k: the sum wraps, the complement is taken within the word. */
  function MyAlign(a: nat, k: nat, w: nat): nat
    requires a < Pow(2, w) && k < w
  {
    PowPositive(2, k);
    PowMonotone(k, w);
    var l := Pow(2, k);
    BitAnd((a + l - 1) % Pow(2, w), Pow(2, w) - 1 - (l - 1))
  }

  /** r is the least multiple of l that is not below a. */
  ghost predicate IsLeastMultiple(r: nat, a: nat, l: nat)
    requires l > 0
  {
    r % l == 0 && a <= r && forall m: nat | m % l == 0 && a <= m :: r <= m
  }

  /** A multiple of l not below a is not below a + l - 1 rounded down. */
  lemma NotBelow(a: nat, l: nat, m: nat)
    requires l > 0 && m % l == 0 && a <= m
    ensures (a + l - 1) - (a + l - 1) % l <= m
  {
    var s := a + l - 1;
    var q, n := s / l, m / l;
    assert s == l * q + s % l && m == l * n;
    assert l * (q - n) == s - s % l - m;
    MultipleFar(l, q - n);
  }

  /** Rounding down after adding l - 1 rounds up. */
  lemma RoundUp(a: nat, l: nat, r: nat)
    requires l > 0 && r == (a + l - 1) - (a + l - 1) % l
    ensures IsLeastMultiple(r, a, l)
  {
    var s := a + l - 1;
    assert r == l * (s / l);
    DivMod(0, s / l, l);
    forall m: nat | m % l == 0 && a <= m
      ensures r <= m
    {
      NotBelow(a, l, m);
    }
  }

  /**
   MY_ALIGN gives the least multiple of L not below A for every power of two L and every A that is
   at most 2^w - L, and for no other A: beyond that the sum wraps.
   */
  lemma AlignIsLeastMultiple(a: nat, k: nat, w: nat)
    requires a < Pow(2, w) && k < w
    ensures Pow(2, k) > 0
    ensures IsLeastMultiple(MyAlign(a, k, w), a, Pow(2, k)) <==> a <= Pow(2, w) - Pow(2, k)
  {
    PowMonotone(k, w);
    if a <= Pow(2, w) - Pow(2, k) {
      AlignWithoutWrap(a, k, w);
    } else {
      AlignAfterWrap(a, k, w);
    }
  }

  /** Without a wrap the macro rounds the sum down to a multiple. */
  lemma AlignRounds(a: nat, k: nat, w: nat)
    requires a < Pow(2, w) && k < w && a <= Pow(2, w) - Pow(2, k)
    ensures Pow(2, k) > 0
    ensures var s := a + Pow(2, k) - 1; MyAlign(a, k, w) == s - s % Pow(2, k)
  {
    PowOrdered(k, w);
    var l, n := Pow(2, k), Pow(2, w);
    var s := a + l - 1;
    DivModIs(s, 0, s, n);
    AndHigh(s, w, k);
    assert n - 1 - (l - 1) == n - l;
  }

  lemma AlignWithoutWrap(a: nat, k: nat, w: nat)
    requires a < Pow(2, w) && k < w && a <= Pow(2, w) - Pow(2, k)
    ensures Pow(2, k) > 0 && IsLeastMultiple(MyAlign(a, k, w), a, Pow(2, k))
  {
    AlignRounds(a, k, w);
    RoundUp(a, Pow(2, k), MyAlign(a, k, w));
  }

  lemma AlignAfterWrap(a: nat, k: nat, w: nat)
    requires a < Pow(2, w) && k < w && a > Pow(2, w) - Pow(2, k)
    ensures MyAlign(a, k, w) < a
  {
    PowOrdered(k, w);
    var wrapped := a + Pow(2, k) - 1 - Pow(2, w);
    DivMod(wrapped, 1, Pow(2, w));
    AndHigh(wrapped, w, k);
    ModBounds(wrapped, Pow(2, k));
  }

  lemma ModBounds(a: nat, l: nat)
    requires l > 0
    ensures 0 <= a % l <= a
  {
    if a < l {
      DivMod(a, 0, l);
    }
  }

  /** So aligning twice changes nothing more, and a larger address never aligns below a smaller one. */
  lemma AlignIdempotentMonotone(a: nat, b: nat, k: nat, w: nat)
    requires a <= b < Pow(2, w) && k < w && b <= Pow(2, w) - Pow(2, k)
    ensures MyAlign(a, k, w) < Pow(2, w) && MyAlign(a, k, w) <= MyAlign(b, k, w)
    ensures MyAlign(MyAlign(a, k, w), k, w) == MyAlign(a, k, w)
  {
    var l, n := Pow(2, k), Pow(2, w);
    PowMonotone(k, w);
    AlignIsLeastMultiple(a, k, w);
    AlignIsLeastMultiple(b, k, w);
    var r := MyAlign(a, k, w);
    LastMultiple(a, l, n);
    assert r <= n - l;
    AlignIsLeastMultiple(r, k, w);
  }

  /** The highest multiple in the word is n - l. */
  lemma LastMultiple(a: nat, l: nat, n: nat)
    requires l > 0 && n % l == 0 && l <= n && a <= n - l
    ensures (n - l) % l == 0
  {
    var m := n / l;
    assert n == l * m && n - l == l * (m - 1);
    DivMod(0, m - 1, l);
  }

  // ----- bit by bit -----

  /** Bit i of a number. */
  predicate Bit(a: nat, i: nat) {
    PowPositive(2, i);
    a / Pow(2, i) % 2 == 1
  }

  lemma BitHalved(a: nat, i: nat)
    requires i > 0
    ensures Bit(a, i) <==> Bit(a / 2, i - 1)
  {
    PowPositive(2, i - 1);
    DivModTwice(a, 2, Pow(2, i - 1));
  }

  lemma LowBit(a: nat)
    ensures Bit(a, 0) <==> a % 2 == 1
  {
    DivMod(0, a, 1);
  }

  /** Every bit of the conjunction is set when it is in both numbers, of the disjunction when it is in one. */
  lemma {:induction false} BitByBit(a: nat, b: nat, i: nat)
    ensures Bit(BitAnd(a, b), i) <==> Bit(a, i) && Bit(b, i)
    ensures Bit(BitOr(a, b), i) <==> Bit(a, i) || Bit(b, i)
    decreases i
  {
    AndHalved(a, b);
    OrHalved(a, b);
    if i == 0 {
      LowBit(a);
      LowBit(b);
      LowBit(BitAnd(a, b));
      LowBit(BitOr(a, b));
    } else {
      BitByBit(a / 2, b / 2, i - 1);
      BitHalved(a, i);
      BitHalved(b, i);
      BitHalved(BitAnd(a, b), i);
      BitHalved(BitOr(a, b), i);
    }
  }

  lemma AndHalved(a: nat, b: nat)
    ensures BitAnd(a, b) / 2 == BitAnd(a / 2, b / 2)
    ensures BitAnd(a, b) % 2 == 1 <==> a % 2 == 1 && b % 2 == 1
  {
    if a == 0 && b == 0 {
      assert BitAnd(0, 0) == 0;
    }
  }

  lemma OrHalved(a: nat, b: nat)
    ensures BitOr(a, b) / 2 == BitOr(a / 2, b / 2)
    ensures BitOr(a, b) % 2 == 1 <==> a % 2 == 1 || b % 2 == 1
  {
    if a == 0 && b == 0 {
      assert BitOr(0, 0) == 0;
    }
  }
}
