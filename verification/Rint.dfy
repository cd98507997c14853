/** The rint fallback over exact reals: modf, then at most one step away from zero. */
module Rint {
  /** 2^53 - 1 */
  const MAX_EXACT_INTEGER := 0x1F_FFFF_FFFF_FFFF

  /** The integral part that modf stores: rounded toward zero. */
  function Truncate(x: real): int {
    if x >= 0.0 then x.Floor else -((-x).Floor)
  }

  /** (longlong) i % 2 as a truth value; C's remainder of an odd negative number is -1. */
  predicate Odd(i: int) {
    i % 2 != 0
  }

  method Rint(x: real) returns (i: int)
    ensures i == Rounded(x)
  {
    i := Truncate(x);
    var f := x - i as real;
    if x > 0.0 {
      i := i + if f > 0.5 || (f == 0.5 && i <= MAX_EXACT_INTEGER && Odd(i)) then 1 else 0;
    } else {
      i := i - if f < -0.5 || (f == -0.5 && i >= -MAX_EXACT_INTEGER && Odd(i)) then 1 else 0;
    }
  }

  /** Half to even between the two neighbouring integers, except that ties beyond the exact range round toward zero. */
  function Rounded(x: real): int {
    var below := x.Floor;
    var f := x - below as real;
    if f < 0.5 then below
    else if f > 0.5 then below + 1
    else if x > 0.0 then
      if below <= MAX_EXACT_INTEGER && Odd(below) then below + 1 else below
    else
      if below + 1 >= -MAX_EXACT_INTEGER && Odd(below + 1) then below else below + 1
  }

  predicate Within(x: real) {
    -(MAX_EXACT_INTEGER as real) <= x <= MAX_EXACT_INTEGER as real
  }

  /** n is a nearest integer to x, and the even one of two. */
  predicate HalfToEven(x: real, n: int) {
    && -0.5 <= x - n as real <= 0.5
    && (x - n as real == 0.5 || x - n as real == -0.5 ==> n % 2 == 0)
  }

  lemma RoundedNearest(x: real)
    ensures -0.5 <= x - Rounded(x) as real <= 0.5
  {
  }

  /** Round-half-to-even exactly when x is not a tie next to an odd integer beyond the exact range. */
  lemma RoundedHalfToEven(x: real)
    ensures HalfToEven(x, Rounded(x)) <==>
            !(x - Truncate(x) as real in {0.5, -0.5} && Odd(Truncate(x)) &&
              !(-MAX_EXACT_INTEGER <= Truncate(x) <= MAX_EXACT_INTEGER))
  {
    RoundedNearest(x);
  }

  /** On the whole exact range it is round-half-to-even, which leaves no choice of result. */
  lemma RoundedWithin(x: real, n: int)
    requires Within(x)
    ensures HalfToEven(x, Rounded(x))
    ensures HalfToEven(x, n) ==> n == Rounded(x)
  {
  }

  lemma RoundedMonotone(x: real, y: real)
    requires x <= y
    ensures Rounded(x) <= Rounded(y)
  {
  }

  lemma RoundedOdd(x: real)
    ensures Rounded(-x) == -Rounded(x)
  {
  }

  /** Ties on both sides of zero, and where the exact range ends. */
  lemma RoundedTies()
    ensures Rounded(0.5) == 0 && Rounded(1.5) == 2 && Rounded(2.5) == 2
    ensures Rounded(-0.5) == 0 && Rounded(-1.5) == -2 && Rounded(-2.5) == -2
    ensures MAX_EXACT_INTEGER == 9007199254740991
    ensures Rounded(9007199254740991.5) == 9007199254740992 && Rounded(9007199254740993.5) == 9007199254740993
  {
  }
}
