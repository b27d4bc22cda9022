/** The few facts about products, quotients and powers of two the prefix model needs. */
module Arithmetic {

  function Pow2(n: nat): (r: nat)
    ensures r >= 1
  {
    if n == 0 then 1 else 2 * Pow2(n - 1)
  }

  lemma MulAssoc(a: nat, b: nat, c: nat)
    ensures a * (b * c) == (a * b) * c
  {
  }

  lemma MulMono(a: nat, b: nat, c: nat)
    requires b <= c
    ensures a * b <= a * c
  {
  }

  lemma MulStep(a: nat, b: nat)
    ensures a * (b + 1) == a * b + a
  {
  }

  lemma DivBounds(x: nat, m: nat)
    requires m >= 1
    ensures m * (x / m) <= x < m * (x / m + 1)
  {
    MulStep(m, x / m);
  }

  lemma DivUnique(x: nat, m: nat, k: nat)
    requires m >= 1 && m * k <= x < m * (k + 1)
    ensures x / m == k
  {
    var d := x / m;
    DivBounds(x, m);
    if d < k {
      MulMono(m, d + 1, k);
    } else if d > k {
      MulMono(m, k + 1, d);
    }
  }

  lemma DivDiv(x: nat, m: nat, k: nat)
    requires m >= 1 && k >= 1
    ensures m * k >= 1 && x / (m * k) == (x / m) / k
  {
    var d := x / m;
    var e := d / k;
    DivBounds(x, m);
    DivBounds(d, k);
    MulMono(m, 1, k);
    MulMono(m, k * e, d);
    MulMono(m, d + 1, k * (e + 1));
    MulAssoc(m, k, e);
    MulAssoc(m, k, e + 1);
    DivUnique(x, m * k, e);
  }

  lemma MultipleDiv(m: nat, k: nat)
    requires m >= 1
    ensures (m * k) / m == k
  {
    MulStep(m, k);
    DivUnique(m * k, m, k);
  }

  lemma MulNonNegative(a: nat, b: nat)
    ensures a * b >= 0
  {
  }

  /** Rounding down to a multiple of `m` stays in the block. */
  lemma RoundDown(x: nat, m: nat, k: nat, y: int)
    requires m >= 1 && k == x / m && y == m * k
    ensures 0 <= y <= x && y / m == k
  {
    DivBounds(x, m);
    MulNonNegative(m, k);
    MultipleDiv(m, k);
  }

  /** The multiple of `m` at or below `x`. */
  function BlockStart(x: nat, m: nat): (y: nat)
    requires m >= 1
    ensures y <= x && y / m == x / m && y == m * (y / m)
  {
    var k := x / m;
    RoundDown(x, m, k, m * k);
    m * k
  }

  lemma OneBlockFurther(x: nat, m: nat)
    requires m >= 1
    ensures (x + m) / m == x / m + 1
  {
    var k, y := x / m, x + m;
    DivBounds(x, m);
    MulStep(m, k);
    MulStep(m, k + 1);
    assert m * (k + 1) <= y < m * (k + 1 + 1);
    DivUnique(y, m, k + 1);
  }

  /** A multiple of `m` below `m * n` leaves room for one more block. */
  lemma BlockRoom(m: nat, k: nat, n: nat)
    requires m * k < m * n
    ensures m * k + m <= m * n
  {
    if k >= n {
      MulMono(m, n, k);
    }
    MulMono(m, k + 1, n);
    MulStep(m, k);
  }

  lemma {:induction false} Pow2Add(a: nat, b: nat)
    ensures Pow2(a + b) == Pow2(a) * Pow2(b)
  {
    if a > 0 {
      Pow2Add(a - 1, b);
      MulAssoc(2, Pow2(a - 1), Pow2(b));
    }
  }
}
