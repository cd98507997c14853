/** Big numbers as arrays of machine words: trimming leading zero words, and the tests that rely on it. */
module Bignum {
  import opened Powers

  // ----- the number a sequence of words stands for, least significant first -----

  function Value(words: seq<nat>, base: nat): nat {
    if words == [] then 0 else words[0] + base * Value(words[1..], base)
  }

  /** The same as the sum of words[i] * base^i. */
  function WeightedSum(words: seq<nat>, base: nat): nat {
    if words == [] then 0
    else WeightedSum(words[..|words| - 1], base) + words[|words| - 1] * Pow(base, |words| - 1)
  }

  predicate Words(words: seq<nat>, base: nat) {
    forall w | w in words :: w < base
  }

  predicate Trimmed(words: seq<nat>) {
    words == [] || words[|words| - 1] != 0
  }

  /** The words without the zero words at the top end. */
  function Trim(words: seq<nat>): (r: seq<nat>)
    ensures r <= words && Trimmed(r)
    ensures forall i | |r| <= i < |words| :: words[i] == 0
  {
    if Trimmed(words) then words else Trim(words[..|words| - 1])
  }

  lemma {:induction false} ValueAppend(words: seq<nat>, top: nat, base: nat)
    ensures Value(words + [top], base) == Value(words, base) + top * Pow(base, |words|)
  {
    if words == [] {
      assert Value([top], base) == top + base * Value([], base);
    } else {
      assert (words + [top])[1..] == words[1..] + [top];
      ValueAppend(words[1..], top, base);
      calc {
        base * (top * Pow(base, |words| - 1));
        top * (base * Pow(base, |words| - 1));
        top * Pow(base, |words|);
      }
    }
  }

  lemma {:induction false} ValueIsSum(words: seq<nat>, base: nat)
    ensures Value(words, base) == WeightedSum(words, base)
  {
    if words != [] {
      var n := |words| - 1;
      assert words == words[..n] + [words[n]];
      ValueAppend(words[..n], words[n], base);
      ValueIsSum(words[..n], base);
    }
  }

  /** Dropping the zero words keeps the number. */
  lemma {:induction false} TrimKeepsValue(words: seq<nat>, base: nat)
    ensures Value(Trim(words), base) == Value(words, base)
  {
    if !Trimmed(words) {
      var n := |words| - 1;
      assert words == words[..n] + [0];
      ValueAppend(words[..n], 0, base);
      TrimKeepsValue(words[..n], base);
    }
  }

  lemma LowWord(words: seq<nat>, base: nat)
    requires words != [] && Words(words, base) && base > 0
    ensures Value(words, base) % base == words[0]
    ensures Value(words, base) / base == Value(words[1..], base)
  {
    assert words[0] in words;
    DivMod(words[0], Value(words[1..], base), base);
  }

  /** A trimmed number is zero only when it has no words, and with two words or more is at least the base. */
  lemma {:induction false} TrimmedSize(words: seq<nat>, base: nat)
    requires Trimmed(words) && base > 0
    ensures Value(words, base) == 0 <==> words == []
    ensures |words| >= 2 ==> Value(words, base) >= base
  {
    if |words| >= 2 {
      TrimmedSize(words[1..], base);
      var high := Value(words[1..], base);
      assert base * high >= base by { assert high >= 1; }
    } else if |words| == 1 {
      assert Value(words, base) == words[0] + base * Value([], base);
    }
  }

  /** A trimmed number has one representation. */
  lemma {:induction false} TrimmedUnique(a: seq<nat>, b: seq<nat>, base: nat)
    requires base > 0 && Words(a, base) && Words(b, base) && Trimmed(a) && Trimmed(b)
    requires Value(a, base) == Value(b, base)
    ensures a == b
  {
    TrimmedSize(a, base);
    TrimmedSize(b, base);
    if a != [] {
      LowWord(a, base);
      LowWord(b, base);
      assert forall w | w in a[1..] :: w in a;
      assert forall w | w in b[1..] :: w in b;
      TrimmedUnique(a[1..], b[1..], base);
      assert a == [a[0]] + a[1..] && b == [b[0]] + b[1..];
    }
  }

  // ----- BIGNUM -----

  class Bignum {
    /** Bits in a word. */
    const width: nat
    const d: array<nat>
    var top: nat
    var neg: bool

    ghost function Base(): nat {
      Pow(2, width)
    }

    ghost predicate Valid()
      reads this, d
    {
      width > 0 && top <= d.Length && Words(d[..], Base())
    }

    ghost function Magnitude(): nat
      reads this, d
      requires Valid()
    {
      Value(d[..top], Base())
    }

    ghost function Number(): int
      reads this, d
      requires Valid()
    {
      var m: int := Magnitude(); if neg then -m else m
    }

    /** What bn_check_top asserts. */
    predicate Checked()
      reads this, d
      requires top <= d.Length
    {
      top == 0 || d[top - 1] != 0
    }

    /** bn_correct_top: only top changes, to the first value that leaves no zero word at the top. */
    method CorrectTop()
      requires Valid()
      modifies this`top
      ensures Valid() && Checked()
      ensures d[..top] == Trim(d[..old(top)])
      ensures Number() == old(Number())
    {
      var tmpTop := top;
      if tmpTop > 0 {
        var ftl: int := tmpTop - 1;
        while tmpTop > 0
          invariant tmpTop <= top && ftl == tmpTop - 1
          invariant Trim(d[..tmpTop]) == Trim(d[..top])
        {
          var word := d[ftl];
          ftl := ftl - 1;
          if word != 0 {
            break;
          }
          assert d[..tmpTop][..tmpTop - 1] == d[..tmpTop - 1];
          tmpTop := tmpTop - 1;
        }
        assert Trimmed(d[..tmpTop]);
        TrimKeepsValue(d[..top], Base());
        top := tmpTop;
      }
    }

    /** BN_abs_is_word */
    predicate AbsIsWord(w: nat)
      reads this, d
      requires top <= d.Length
    {
      (top == 1 && d[0] == w) || (w == 0 && top == 0)
    }

    /** BN_is_zero */
    predicate IsZero()
      reads this
    {
      top == 0
    }

    /** BN_is_one */
    predicate IsOne()
      reads this, d
      requires top <= d.Length
    {
      AbsIsWord(1) && !neg
    }

    /** BN_is_word */
    predicate IsWord(w: nat)
      reads this, d
      requires top <= d.Length
    {
      AbsIsWord(w) && (w == 0 || !neg)
    }

    /** BN_is_odd: the lowest bit of the lowest word. */
    predicate IsOdd()
      reads this, d
      requires top <= d.Length
    {
      top > 0 && d[0] % 2 == 1
    }

    lemma WordsInUse()
      requires Valid()
      ensures Words(d[..top], Base()) && Base() >= 2 && Base() % 2 == 0
      ensures Checked() <==> Trimmed(d[..top])
    {
      var half := Pow(2, width - 1);
      PowPositive(2, width - 1);
      assert Base() == 2 * half;
      DivMod(0, half, 2);
      assert forall w | w in d[..top] :: w in d[..];
    }

    /** On a number of any length without a zero top word, comparing one word compares the number. */
    lemma AbsIsWordDecides(w: nat)
      requires Valid() && Checked() && w < Base()
      ensures AbsIsWord(w) <==> Magnitude() == w
    {
      WordsInUse();
      TrimmedSize(d[..top], Base());
      if top >= 1 {
        LowWord(d[..top], Base());
        if top == 1 {
          assert Value(d[..top][1..], Base()) == 0;
        }
      }
    }

    lemma ZeroOneWordDecide(w: nat)
      requires Valid() && Checked() && w < Base()
      ensures IsZero() <==> Number() == 0
      ensures IsOne() <==> Number() == 1
      ensures IsWord(w) <==> Number() == w
    {
      WordsInUse();
      AbsIsWordDecides(0);
      AbsIsWordDecides(1);
      AbsIsWordDecides(w);
    }

    /**
     Without that condition the word test still decides every word exactly when there is at most one
     word, or the number is too large for any; and the zero test when the number is not a disguised zero.
     */
    lemma TestsWithoutTrimming()
      requires Valid()
      ensures (forall w: nat | w < Base() :: AbsIsWord(w) <==> Magnitude() == w) <==> top <= 1 || Magnitude() >= Base()
      ensures (IsZero() <==> Number() == 0) <==> top == 0 || Magnitude() != 0
    {
      WordsInUse();
      if top == 0 {
        assert Value([], Base()) == 0;
      } else if top == 1 {
        assert Value(d[..top][1..], Base()) == 0;
        assert d[0] in d[..];
      } else if Magnitude() < Base() {
        assert !AbsIsWord(Magnitude());
      }
    }

    /** Parity needs no trimming: the other words only add multiples of the even base. */
    lemma OddDecides()
      requires Valid()
      ensures IsOdd() <==> Number() % 2 == 1
    {
      WordsInUse();
      if top > 0 {
        var words := d[..top];
        var high := Base() * Value(words[1..], Base());
        EvenProduct(Base(), Value(words[1..], Base()));
        assert Magnitude() == d[0] + high;
        ParityOfSum(d[0], high);
      }
    }
  }

  lemma ParityOfSum(low: nat, high: nat)
    requires high % 2 == 0
    ensures (low + high) % 2 == low % 2 && (-(low + high)) % 2 == low % 2
  {
  }

  lemma EvenProduct(a: nat, b: nat)
    requires a % 2 == 0
    ensures a * b % 2 == 0
  {
    var h := a / 2;
    assert a == 2 * h && a * b == 2 * (h * b);
  }
}
