/** Powers and bits of natural numbers. */
module Arithmetic {

  function Power(b: nat, n: nat): (r: nat)
    ensures b > 0 ==> r > 0
  {
    if n == 0 then 1 else b * Power(b, n - 1)
  }

  function Pow2(n: nat): (r: int)
    ensures r > 0
  {
    if n == 0 then 1 else 2 * Pow2(n - 1)
  }

  lemma {:induction false} Pow2Grows(j: nat, k: nat)
    requires j <= k
    ensures Pow2(j) <= Pow2(k)
  {
    if j < k {
      Pow2Grows(j, k - 1);
    }
  }

  /** The bits that two numbers share. */
  function BitAnd(x: nat, y: nat): (r: nat)
    ensures r <= x && r <= y
  {
    if x == 0 || y == 0 then 0 else 2 * BitAnd(x / 2, y / 2) + (if x % 2 == 1 && y % 2 == 1 then 1 else 0)
  }

  lemma {:induction false} BitAndSelf(x: nat)
    ensures BitAnd(x, x) == x
  {
    if x > 0 {
      BitAndSelf(x / 2);
    }
  }

  predicate Bit(v: int, n: nat)
    decreases n
  {
    if n == 0 then v % 2 == 1 else Bit(v / 2, n - 1)
  }

  lemma ProductGrows(a: int, b: int, d: nat)
    requires a <= b
    ensures a * d <= b * d
  {
    assert b * d == a * d + (b - a) * d;
  }

  lemma SmallMultiple(x: int, d: nat)
    requires -1 * d < x * d < d
    ensures x == 0
  {
    if x > 0 {
      ProductGrows(1, x, d);
    } else if x < 0 {
      ProductGrows(x, -1, d);
    }
  }

  lemma QuotientIs(w: int, d: nat, q: int, r: nat)
    requires d > 0 && w == q * d + r && r < d
    ensures w / d == q && w % d == r
  {
    var q', r' := w / d, w % d;
    assert (q - q') * d == r' - r;
    SmallMultiple(q - q', d);
  }

  lemma DivideTwice(w: nat, p: nat, q: nat)
    requires p > 0 && q > 0
    ensures p * q > 0 && w / (p * q) == w / p / q
    ensures w % (p * q) == w % p + p * (w / p % q)
  {
    var a, r := w / p, w % p;
    Recompose(a, r, p, q, a / q, a % q);
    QuotientIs(w, p * q, a / q, a % q * p + r);
  }

  lemma Recompose(a: nat, r: nat, p: nat, q: nat, b: nat, e: nat)
    requires r < p && a == b * q + e && e < q
    ensures a * p + r == b * (p * q) + (e * p + r)
    ensures 0 <= e * p + r < p * q
  {
    ProductGrows(e + 1, q, p);
  }
}
