/** Bitwise operations on natural numbers, and what they do to each bit. */
module Bits {
  import opened Arithmetic

  function Pow2(n: nat): (p: nat)
    ensures p >= 1
  {
    if n == 0 then 1 else 2 * Pow2(n - 1)
  }

  /** Bit i of x. */
  predicate Bit(x: nat, i: nat) {
    if i == 0 then x % 2 == 1 else Bit(x / 2, i - 1)
  }

  function And(x: nat, y: nat): nat {
    if x == 0 then 0 else 2 * And(x / 2, y / 2) + (if x % 2 == 1 && y % 2 == 1 then 1 else 0)
  }

  function Or(x: nat, y: nat): nat
    decreases x + y
  {
    if x == 0 && y == 0 then 0 else 2 * Or(x / 2, y / 2) + (if x % 2 == 1 || y % 2 == 1 then 1 else 0)
  }

  /** All n bits flipped. */
  function Not(x: nat, n: nat): nat
    requires x < Pow2(n)
  {
    Pow2(n) - 1 - x
  }

  lemma {:induction false} ZeroBit(i: nat)
    ensures !Bit(0, i)
  {
    if i > 0 { ZeroBit(i - 1); }
  }

  lemma {:induction false} AndBit(x: nat, y: nat, i: nat)
    ensures Bit(And(x, y), i) <==> Bit(x, i) && Bit(y, i)
  {
    if x == 0 { ZeroBit(i); } else if i > 0 { AndBit(x / 2, y / 2, i - 1); }
  }

  lemma {:induction false} OrBit(x: nat, y: nat, i: nat)
    ensures Bit(Or(x, y), i) <==> Bit(x, i) || Bit(y, i)
  {
    if x == 0 && y == 0 { ZeroBit(i); } else if i > 0 { OrBit(x / 2, y / 2, i - 1); }
  }

  lemma {:induction false} NotBit(x: nat, n: nat, i: nat)
    requires x < Pow2(n) && i < n
    ensures Bit(Not(x, n), i) <==> !Bit(x, i)
  {
    assert Not(x, n) / 2 == Not(x / 2, n - 1);
    if i > 0 { NotBit(x / 2, n - 1, i - 1); }
  }

  lemma {:induction false} PowBit(b: nat, i: nat)
    ensures Bit(Pow2(b), i) <==> i == b
  {
    if i == 0 {
    } else if b == 0 {
      ZeroBit(i - 1);
    } else {
      PowBit(b - 1, i - 1);
    }
  }

  /** The test `x & (1 << b)`. */
  lemma {:induction false} TestBit(x: nat, b: nat)
    ensures And(x, Pow2(b)) != 0 <==> Bit(x, b)
  {
    if x == 0 {
      ZeroBit(b);
    } else if b == 0 {
      AndZero(x / 2);
      assert And(x, 1) == 2 * And(x / 2, 0) + x % 2;
    } else {
      TestBit(x / 2, b - 1);
    }
  }

  lemma {:induction false} AndZero(x: nat)
    ensures And(x, 0) == 0
  {
    if x > 0 { AndZero(x / 2); }
  }

  lemma {:induction false} OrBound(x: nat, y: nat, n: nat)
    requires x < Pow2(n) && y < Pow2(n)
    ensures Or(x, y) < Pow2(n)
  {
    if n > 0 && (x > 0 || y > 0) { OrBound(x / 2, y / 2, n - 1); }
  }

  lemma {:induction false} AndBound(x: nat, y: nat)
    ensures And(x, y) <= x
  {
    if x > 0 { AndBound(x / 2, y / 2); }
  }

  lemma {:induction false} PowMonotone(a: nat, b: nat)
    requires a <= b
    ensures Pow2(a) <= Pow2(b) && (a < b ==> Pow2(a) < Pow2(b))
  {
    if a < b { PowMonotone(a, b - 1); }
  }

  // ----- masks -----

  lemma {:induction false} AndOnes(x: nat, n: nat)
    requires x < Pow2(n)
    ensures And(x, Pow2(n) - 1) == x
  {
    hide And, Pow2;
    if n == 0 {
      PowStep(0, 0);
      AndOfZero(0);
    } else {
      PowStep(n, n);
      AndOnes(x / 2, n - 1);
      AndOdd(x, Pow2(n - 1) - 1);
    }
  }

  lemma AndOfZero(y: nat)
    ensures And(0, y) == 0
  {
  }

  lemma AndOdd(x: nat, y: nat)
    ensures And(x, 2 * y + 1) == 2 * And(x / 2, y) + x % 2
  {
    assert (2 * y + 1) / 2 == y && (2 * y + 1) % 2 == 1;
  }

  /** Clearing the low k bits with a mask is subtracting the remainder by 2^k. */
  lemma {:induction false} ClearLow(x: nat, n: nat, k: nat)
    requires x < Pow2(n) && k <= n
    ensures Pow2(k) <= Pow2(n) && And(x, Not(Pow2(k) - 1, n)) == x - x % Pow2(k)
  {
    hide And, Pow2;
    PowMonotone(k, n);
    if k == 0 {
      PowStep(0, 0);
      AndOnes(x, n);
    } else {
      PowStep(k, n);
      ClearLow(x / 2, n - 1, k - 1);
      HalfMod(x, Pow2(k - 1));
      AndEven(x, Not(Pow2(k - 1) - 1, n - 1));
    }
  }

  lemma PowStep(k: nat, n: nat)
    ensures Pow2(0) == 1 && (k > 0 ==> Pow2(k) == 2 * Pow2(k - 1)) && (n > 0 ==> Pow2(n) == 2 * Pow2(n - 1))
  {
  }

  lemma AndEven(x: nat, y: nat)
    ensures And(x, 2 * y) == 2 * And(x / 2, y)
  {
    assert 2 * y / 2 == y && 2 * y % 2 == 0;
  }
}
