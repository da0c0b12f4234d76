/** The 32-bit linear congruential generator behind the inputs: it has full period 2^32, so the seeds
    of a fuzzing round, which name the inputs, are distinct. */
module Lcg {
  import opened Arithmetic

  const POW32: int := 0x1_0000_0000
  const MULTIPLIER: int := 2891336453
  const INCREMENT: int := 54321

  /** One draw, as the generator computes it. */
  function Next(x: int): (r: int)
    ensures 0 <= r < POW32
  {
    ((x * MULTIPLIER) % POW32 + INCREMENT) % POW32
  }

  function Draws(x: int, n: nat): int {
    if n == 0 then x else Next(Draws(x, n - 1))
  }

  // ----- The generator over the integers -----

  /** n draws without the reductions. */
  ghost function Unreduced(x: int, n: nat): int {
    if n == 0 then x else Unreduced(x, n - 1) * MULTIPLIER + INCREMENT
  }

  lemma ModOf(x: int, q: int, r: int)
    requires x == q * POW32 + r && 0 <= r < POW32
    ensures x % POW32 == r
  {
    assert (q - x / POW32) * POW32 == x % POW32 - r;
  }

  lemma SameResidue(x: int, y: int, q: int)
    requires x == y + q * POW32
    ensures x % POW32 == y % POW32
  {
    ModOf(x, q + y / POW32, y % POW32);
  }

  lemma NextIsAffine(x: int)
    ensures Next(x) == (x * MULTIPLIER + INCREMENT) % POW32
  {
    var p := x * MULTIPLIER;
    assert p % POW32 + INCREMENT == p + INCREMENT + (-(p / POW32)) * POW32;
    SameResidue(p % POW32 + INCREMENT, p + INCREMENT, -(p / POW32));
  }

  lemma NextOfResidue(x: int)
    ensures Next(x % POW32) == Next(x)
  {
    NextIsAffine(x % POW32);
    NextIsAffine(x);
    var q := -(x / POW32) * MULTIPLIER;
    assert x % POW32 == x + -(x / POW32) * POW32;
    assert (x % POW32) * MULTIPLIER + INCREMENT == x * MULTIPLIER + INCREMENT + q * POW32;
    SameResidue((x % POW32) * MULTIPLIER + INCREMENT, x * MULTIPLIER + INCREMENT, q);
  }

  lemma {:induction false} DrawsAreResidues(x: int, n: nat)
    requires 0 <= x < POW32
    ensures Draws(x, n) == Unreduced(x, n) % POW32
  {
    if n > 0 {
      DrawsAreResidues(x, n - 1);
      NextOfResidue(Unreduced(x, n - 1));
      NextIsAffine(Unreduced(x, n - 1));
    }
  }

  lemma {:induction false} UnreducedAdds(x: int, m: nat, n: nat)
    ensures Unreduced(Unreduced(x, m), n) == Unreduced(x, m + n)
  {
    if n > 0 {
      UnreducedAdds(x, m, n - 1);
    }
  }

  lemma {:induction false} DrawsAdd(x: int, m: nat, n: nat)
    ensures Draws(Draws(x, m), n) == Draws(x, m + n)
  {
    if n > 0 {
      DrawsAdd(x, m, n - 1);
    }
  }

  // ----- 2^k draws move every number by an odd multiple of 2^k -----

  ghost function Affine(p: int, m: int, o: int, x: int): int {
    (1 + 4 * (p * m)) * x + p * (2 * o + 1)
  }

  ghost predicate AffineBy(k: nat, m: int, o: int) {
    forall x {:trigger Unreduced(x, Pow2(k))} :: Unreduced(x, Pow2(k)) == Affine(Pow2(k), m, o, x)
  }

  /** Applying such a map twice gives one of the same kind for 2p. */
  lemma SquareAffine(p: int, m: int, o: int, x: int)
    ensures Affine(p, m, o, Affine(p, m, o, x))
            == Affine(2 * p, m + 2 * (p * m) * m, o + 2 * (p * m) * o + p * m, x)
  {
    var u, c := p * m, p * (2 * o + 1);
    var a := 1 + 4 * u;
    assert a * (a * x + c) + c == a * (a * x) + (a * c + c);
    Expand(a, x, u);
    SquareFactor(p, m, u);
    SquareOffset(p, o, u, c);
  }

  lemma SquareFactor(p: int, m: int, u: int)
    requires u == p * m
    ensures 1 + 4 * ((2 * p) * (m + 2 * u * m)) == 1 + 8 * u + 16 * (u * u)
  {
    assert p * (u * m) == u * u;
    assert (2 * p) * (m + 2 * u * m) == 2 * (p * m) + 4 * (p * (u * m));
  }

  lemma SquareOffset(p: int, o: int, u: int, c: int)
    requires c == p * (2 * o + 1)
    ensures (1 + 4 * u) * c + c == (2 * p) * (2 * (o + 2 * u * o + u) + 1)
  {
    assert (1 + 4 * u) * c + c == 2 * ((1 + 2 * u) * c);
    assert (1 + 2 * u) * (2 * o + 1) == 2 * (o + 2 * u * o + u) + 1;
    assert (1 + 2 * u) * c == p * ((1 + 2 * u) * (2 * o + 1));
  }

  lemma Expand(a: int, x: int, u: int)
    requires a == 1 + 4 * u
    ensures a * (a * x) == (1 + 8 * u + 16 * (u * u)) * x
  {
    assert a * a == 1 + 8 * u + 16 * (u * u);
    assert a * (a * x) == (a * a) * x;
  }

  lemma {:induction false} DrawsAreAffine(k: nat) returns (m: int, o: int)
    ensures AffineBy(k, m, o)
  {
    if k == 0 {
      m, o := (MULTIPLIER - 1) / 4, (INCREMENT - 1) / 2;
      forall x ensures Unreduced(x, Pow2(0)) == Affine(Pow2(0), m, o, x) {
        assert Unreduced(x, 1) == Unreduced(x, 0) * MULTIPLIER + INCREMENT;
      }
    } else {
      var m', o' := DrawsAreAffine(k - 1);
      var p := Pow2(k - 1);
      m, o := m' + 2 * (p * m') * m', o' + 2 * (p * m') * o' + p * m';
      forall x ensures Unreduced(x, Pow2(k)) == Affine(Pow2(k), m, o, x) {
        UnreducedAdds(x, p, p);
        assert Unreduced(x, p) == Affine(p, m', o', x);
        assert Unreduced(Unreduced(x, p), p) == Affine(p, m', o', Unreduced(x, p));
        SquareAffine(p, m', o', x);
      }
    }
  }

  lemma PowerMoves(x: int, k: nat) returns (r: int)
    ensures Unreduced(x, Pow2(k)) - x == Pow2(k) * (2 * r + 1)
  {
    var m, o := DrawsAreAffine(k);
    r := 2 * (m * x) + o;
    AffineMoves(Pow2(k), m, o, x);
  }

  lemma AffineMoves(p: int, m: int, o: int, x: int)
    ensures Affine(p, m, o, x) - x == p * (2 * (2 * (m * x) + o) + 1)
  {
    assert (1 + 4 * (p * m)) * x == x + 4 * (p * (m * x)) by { assert (p * m) * x == p * (m * x); }
  }

  lemma Distribute(p: int, a: int, b: int)
    ensures p * a + p * b == p * (a + b)
  {
  }

  ghost function Leaps(k: nat, n: nat): nat {
    if n == 0 then 0 else Leaps(k, n - 1) + Pow2(k)
  }

  lemma {:induction false} LeapsMultiply(k: nat, n: nat)
    ensures Leaps(k, n) == n * Pow2(k)
  {
    if n > 0 {
      LeapsMultiply(k, n - 1);
      Distribute(Pow2(k), n - 1, 1);
    }
  }

  lemma Displace(x: int, y: int, z: int, p: int, q: int, r: int)
    requires y == x + p * q && z - y == p * (2 * r + 1)
    ensures z == x + p * (q + (2 * r + 1))
    ensures (q + (2 * r + 1)) % 2 != q % 2
  {
    Distribute(p, q, 2 * r + 1);
  }

  lemma OneMoreLeap(x: int, y: int, k: nat, q: int) returns (q': int)
    requires y == x + Pow2(k) * q
    ensures Unreduced(y, Pow2(k)) == x + Pow2(k) * q' && q' % 2 != q % 2
  {
    var r := PowerMoves(y, k);
    Displace(x, y, Unreduced(y, Pow2(k)), Pow2(k), q, r);
    q' := q + (2 * r + 1);
  }

  lemma LeapFrom(x: int, k: nat, n: nat)
    requires n > 0
    ensures Unreduced(x, Leaps(k, n)) == Unreduced(Unreduced(x, Leaps(k, n - 1)), Pow2(k))
  {
    UnreducedAdds(x, Leaps(k, n - 1), Pow2(k));
  }

  /** So an odd number of such leaps moves by an odd multiple, an even number by an even one. */
  lemma {:induction false} LeapsMove(x: int, k: nat, n: nat) returns (q: int)
    ensures Unreduced(x, Leaps(k, n)) == x + Pow2(k) * q && q % 2 == n % 2
  {
    if n == 0 {
      q := 0;
    } else {
      LeapFrom(x, k, n);
      var y := Unreduced(x, Leaps(k, n - 1));
      var before := LeapsMove(x, k, n - 1);
      q := OneMoreLeap(x, y, k, before);
    }
  }

  // ----- Full period -----

  lemma {:induction false} OddPart(d: nat) returns (k: nat, odd: nat)
    requires d > 0
    ensures d == odd * Pow2(k) && odd % 2 == 1
  {
    if d % 2 == 1 {
      k, odd := 0, d;
    } else {
      k, odd := OddPart(d / 2);
      assert d == 2 * (odd * Pow2(k)) == odd * (2 * Pow2(k));
      k := k + 1;
    }
  }

  lemma {:induction false} Pow2Divides(j: nat, k: nat) returns (q: int)
    requires j <= k
    ensures Pow2(k) == q * Pow2(j)
  {
    if j == k {
      q := 1;
    } else {
      q := Pow2Divides(j, k - 1);
      assert 2 * (q * Pow2(j)) == (2 * q) * Pow2(j);
      q := 2 * q;
    }
  }

  lemma Pow32()
    ensures Pow2(32) == POW32
  {
    assert Pow2(8) == 256;
    assert Pow2(16) == 65536 by { assert Pow2(12) == 4096; }
    assert Pow2(24) == 65536 * 256 by { assert Pow2(20) == 65536 * 16; }
    assert Pow2(28) == 65536 * 256 * 16;
  }

  lemma NoMultiple(p: int, s: int, odd: int, t: int)
    requires p > 0 && odd % 2 == 1
    ensures odd * p != t * (s * (2 * p))
  {
    assert t * (s * (2 * p)) == (2 * (t * s)) * p;
    if odd * p == (2 * (t * s)) * p {
      Cancel(odd, 2 * (t * s), p);
    }
  }

  lemma Cancel(a: int, b: int, p: int)
    requires p > 0 && a * p == b * p
    ensures a == b
  {
    assert (a - b) * p == 0;
  }

  /** An odd multiple of a smaller power of two is no multiple of 2^32. */
  lemma OddMultipleIsNoPeriod(k: nat, odd: int, t: int)
    requires k < 32 && odd % 2 == 1
    ensures odd * Pow2(k) != t * POW32
  {
    Pow32();
    var s := Pow2Divides(k + 1, 32);
    NoMultiple(Pow2(k), s, odd, t);
  }

  lemma LongPeriod(x: int, d: nat, k: nat, odd: nat, q: int)
    requires k >= 32 && d == odd * Pow2(k) && Unreduced(x, d) == x + Pow2(k) * q && 0 <= x < POW32
    ensures d % POW32 == 0 && Unreduced(x, d) % POW32 == x
  {
    Pow32();
    var s := Pow2Divides(32, k);
    Reassociate(s, POW32, q);
    ModOf(Unreduced(x, d), s * q, x);
    Reassociate(s, POW32, odd);
    ModOf(d, s * odd, 0);
  }

  lemma Reassociate(a: int, b: int, c: int)
    ensures (a * b) * c == (a * c) * b
  {
  }

  lemma ShortLeap(x: int, d: nat, k: nat, odd: nat, q: int)
    requires k < 32 && d == odd * Pow2(k) && odd % 2 == 1 && q % 2 == 1
    requires Unreduced(x, d) == x + Pow2(k) * q && 0 <= x < POW32
    ensures d % POW32 != 0 && Unreduced(x, d) % POW32 != x
  {
    var y := Unreduced(x, d);
    OddMultipleIsNoPeriod(k, odd, d / POW32);
    OddMultipleIsNoPeriod(k, q, y / POW32);
    assert q * Pow2(k) == Pow2(k) * q;
  }

  /** Every seed returns to itself after d draws exactly when 2^32 divides d. */
  lemma FullPeriod(x: int, d: nat)
    requires 0 <= x < POW32
    ensures Draws(x, d) == x <==> d % POW32 == 0
  {
    DrawsAreResidues(x, d);
    if d > 0 {
      var k, odd := OddPart(d);
      var q := LeapsMove(x, k, odd);
      LeapsMultiply(k, odd);
      if k >= 32 {
        LongPeriod(x, d, k, odd, q);
      } else {
        ShortLeap(x, d, k, odd, q);
      }
    }
  }

  /** Draws at different distances from a seed differ, up to a whole period. */
  lemma DrawsAreDistinct(x: int, i: nat, j: nat)
    requires 0 <= x < POW32 && i < j
    ensures Draws(x, i) == Draws(x, j) <==> (j - i) % POW32 == 0
  {
    DrawsAdd(x, i, j - i);
    var y := Draws(x, i);
    assert 0 <= y < POW32 by {
      if i > 0 {
        assert y == Next(Draws(x, i - 1));
      }
    }
    FullPeriod(y, j - i);
  }

  lemma NearDrawsDiffer(x: int, i: nat, j: nat)
    requires 0 <= x < POW32 && i < j < i + POW32
    ensures Draws(x, i) != Draws(x, j)
  {
    DrawsAreDistinct(x, i, j);
  }
}
