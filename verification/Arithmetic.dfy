/** Facts about products, quotients and powers of two. */
module Arithmetic {

  function Max(a: int, b: int): int {
    if a < b then b else a
  }

  lemma MulOrder(a: nat, b: nat, d: nat)
    ensures a < b ==> (a + 1) * d <= b * d
    ensures a >= b ==> a * d >= b * d
  {
  }

  lemma DivModUnique(n: nat, d: nat, q: nat, r: nat)
    requires d > 0 && n == q * d + r && r < d
    ensures n / d == q && n % d == r
  {
    MulOrder(n / d, q, d);
    MulOrder(q, n / d, d);
  }

  function Low(n: nat, d: nat): (r: nat)
    requires d > 0
    ensures r < d
  {
    n % d
  }

  function High(n: nat, d: nat): nat
    requires d > 0
  {
    n / d
  }

  lemma LowHigh(v: nat, d: nat, w: nat)
    requires v < d
    ensures Low(v + d * w, d) == v && High(v + d * w, d) == w
  {
    DivModUnique(v + d * w, d, w, v);
  }

  /** Dropping one digit and then the rest drops them together. */
  lemma HighTwice(v: nat, d: nat, w: nat, p: nat)
    requires v < d && p > 0
    ensures d * p > 0 && High(v + d * w, d * p) == High(w, p)
  {
    var q, r := w / p, w % p;
    assert w == q * p + r;
    MulOrder(r, p, d);
    assert (r + 1) * d == d * r + d;
    Spread(d, q, p, r);
    assert d * p > 0 by { MulOrder(0, d, p); }
    DivModUnique(v + d * w, d * p, q, v + d * r);
  }

  lemma Spread(d: nat, q: nat, p: nat, r: nat)
    ensures d * (q * p + r) == q * (d * p) + d * r
  {
  }

  function Pow2(n: nat): (p: nat)
    ensures p > 0
  {
    if n == 0 then 1 else 2 * Pow2(n - 1)
  }

  lemma MulAssociative(x: nat, y: nat, z: nat)
    ensures (x * y) * z == x * (y * z)
  {
  }

  lemma {:induction false} Pow2Sum(a: nat, b: nat)
    ensures Pow2(a + b) == Pow2(a) * Pow2(b)
  {
    if a > 0 {
      Pow2Sum(a - 1, b);
      MulAssociative(2, Pow2(a - 1), Pow2(b));
    }
  }

  lemma {:induction false} Pow2Monotone(a: nat, b: nat)
    requires a <= b
    ensures Pow2(a) <= Pow2(b)
  {
    if a < b {
      Pow2Monotone(a, b - 1);
    }
  }
}
