/** Powers of a base, and division by products of powers. */
module Powers {
  function Pow(b: nat, e: nat): nat {
    if e == 0 then 1 else b * Pow(b, e - 1)
  }

  lemma {:induction false} PowPositive(b: nat, e: nat)
    requires b > 0
    ensures Pow(b, e) >= 1
  {
    if e > 0 {
      PowPositive(b, e - 1);
      assert b * Pow(b, e - 1) >= 1;
    }
  }

  lemma MultipleFar(base: int, q: int)
    requires base >= 0
    ensures q >= 1 ==> base * q >= base
    ensures q <= -1 ==> base * q <= -base
  {
  }

  /** Quotient and remainder are the only ones. */
  lemma DivMod(low: nat, high: int, base: nat)
    requires low < base
    ensures (base * high + low) % base == low && (base * high + low) / base == high
  {
    var v := base * high + low;
    assert v == base * (v / base) + v % base;
    assert base * (high - v / base) == v % base - low;
    MultipleFar(base, high - v / base);
  }

  /** Dividing by a product in two steps, remainder included. */
  lemma DivModTwice(x: int, a: nat, b: nat)
    requires a > 0 && b > 0
    ensures a * b > 0
    ensures x / (a * b) == x / a / b
    ensures x % (a * b) == x % a + a * (x / a % b)
  {
    var q, r := x / a, x % a;
    var q2, r2 := q / b, q % b;
    assert x == a * q + r && q == b * q2 + r2;
    Regroup(a, b, q2, r2, r);
    Below(a, b, r2, r);
    DivModIs(x, q2, a * r2 + r, a * b);
  }

  lemma Below(a: nat, b: nat, r2: nat, r: nat)
    requires r2 < b && r < a
    ensures a * b > 0 && a * r2 + r < a * b
  {
    MultipleFar(a, b - r2);
    assert a * (b - r2) == a * b - a * r2;
    assert a * r2 >= 0;
  }

  lemma DivModIs(x: int, q: int, low: nat, base: nat)
    requires x == base * q + low && low < base
    ensures x / base == q && x % base == low
  {
    DivMod(low, q, base);
  }

  lemma Regroup(a: nat, b: nat, q: int, r: nat, s: nat)
    ensures a * (b * q + r) + s == (a * b) * q + (a * r + s)
  {
  }
}
