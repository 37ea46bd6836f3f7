/** Facts about products and remainders, each proved on its own so that no larger proof depends on them. */
module Arithmetic {
  lemma Distribute(a: int, b: int, c: int)
    ensures a * (b + c) == a * b + a * c
  {
  }

  lemma {:induction false} MulMonotone(a: nat, b: int, c: int)
    requires b <= c
    ensures a * b <= a * c
    decreases c - b
  {
    if b < c {
      MulMonotone(a, b, c - 1);
      Distribute(a, c - 1, 1);
    }
  }

  /** Lines of equal length do not overlap. */
  lemma LineBelow(a: nat, b: int, c: int)
    requires b < c
    ensures a * b + a <= a * c
  {
    MulMonotone(a, b + 1, c);
    Distribute(a, b, 1);
  }

  lemma MulNonNegative(a: nat, b: nat)
    ensures a * b >= 0
  {
    MulMonotone(a, 0, b);
  }

  /** Multiples of m are at least m apart. */
  lemma Far(m: int, d: int)
    requires m > 0 && d != 0
    ensures m * d >= m || m * d <= -m
  {
    if d >= 1 { MulMonotone(m, 1, d); } else { MulMonotone(m, d, -1); }
  }

  lemma DivUnique(x: int, m: int, q: int, r: int)
    requires x == m * q + r && 0 <= r < m
    ensures x % m == r && x / m == q
  {
    var q', r' := x / m, x % m;
    DivMod(x, m);
    Distribute(m, q', -q);
    if q' != q {
      Far(m, q' - q);
      assert false;
    }
  }

  lemma DivMod(x: int, m: int)
    requires m > 0
    ensures x == m * (x / m) + x % m && 0 <= x % m < m
  {
  }

  lemma HalfMod(x: nat, m: nat)
    requires m >= 1
    ensures x % (2 * m) == 2 * (x / 2 % m) + x % 2
  {
    var q, r := x / 2 / m, x / 2 % m;
    DivMod(x / 2, m);
    assert x == (2 * m) * q + (2 * r + x % 2);
    DivUnique(x, 2 * m, q, 2 * r + x % 2);
  }
}
