/** Division with remainder, for divisors that are not constants, and powers of two. */
module Modular {

  lemma MulAtLeast(k: int, r: int)
    requires k >= 1 && r >= 0
    ensures k * r >= r
  {
    assert k * r == (k - 1) * r + r;
  }

  /** Quotient and remainder are the only numbers that can be one. */
  lemma DivModUnique(a: int, r: int, q: int, t: int)
    requires r > 0 && a == q * r + t && 0 <= t < r
    ensures a / r == q && a % r == t
  {
    var q', t' := a / r, a % r;
    assert a == q' * r + t';
    assert (q' - q) * r == q' * r - q * r && (q - q') * r == q * r - q' * r;
    if q' > q {
      MulAtLeast(q' - q, r);
      assert false;
    }
    if q > q' {
      MulAtLeast(q - q', r);
      assert false;
    }
  }

  lemma AddMultiple(n: int, r: int, k: int)
    requires r > 0
    ensures (n + k * r) % r == n % r && (n + k * r) / r == n / r + k
  {
    assert (n / r + k) * r == n / r * r + k * r;
    DivModUnique(n + k * r, r, n / r + k, n % r);
  }

  lemma MultipleMod(q: int, r: int)
    requires r > 0
    ensures (q * r) % r == 0 && q * r / r == q
  {
    DivModUnique(q * r, r, q, 0);
  }

  lemma SmallMod(t: int, r: int)
    requires 0 <= t < r
    ensures t % r == t && t / r == 0
  {
    DivModUnique(t, r, 0, t);
  }

  /** A positive multiple is at least its divisor, and stays one without it. */
  lemma LessOne(n: int, r: int)
    requires r > 0 && n > 0 && n % r == 0
    ensures n >= r && (n - r) % r == 0
  {
    assert n / r >= 1 by {
      assert n == n / r * r;
    }
    MulAtLeast(n / r, r);
    AddMultiple(n, r, -1);
  }

  lemma OneMore(n: int, r: int)
    requires r > 0
    ensures (n + r) % r == n % r
  {
    AddMultiple(n, r, 1);
  }

  /** Modulo a multiple of `b`, a multiple of `b` stays one, so the greatest is `b` below. */
  lemma MultipleModMultiple(n: int, b: int, c: int)
    requires n >= 0 && b > 0 && c > 0 && n % b == 0
    ensures c * b > 0
    ensures n % (c * b) <= c * b - b
    ensures n % (c * b) == 0 || n % (c * b) >= b
  {
    MulAtLeast(c, b);
    var y, k := n % (c * b), n / (c * b);
    assert n == k * (c * b) + y;
    assert k * (c * b) == (k * c) * b;
    AddMultiple(n, b, -(k * c));
    assert -(k * c) * b == -((k * c) * b);
    assert y % b == 0;
    assert y == y / b * b;
    if y / b >= c {
      MulAtMost(c, y / b, b);
      assert false;
    }
    MulAtMost(y / b, c - 1, b);
    assert (c - 1) * b == c * b - b;
    if y > 0 {
      LessOne(y, b);
    }
  }

  lemma MulAtMost(j: int, k: int, r: int)
    requires j <= k && r >= 0
    ensures j * r <= k * r
  {
    assert (k - j) * r == k * r - j * r;
    if k > j {
      MulAtLeast(k - j, r);
    }
  }

  function Pow2(n: nat): (p: nat)
    ensures p >= 1
  {
    if n == 0 then 1 else 2 * Pow2(n - 1)
  }

  lemma {:induction false} Pow2Sum(a: nat, b: nat)
    ensures Pow2(a + b) == Pow2(a) * Pow2(b)
  {
    if a > 0 {
      Pow2Sum(a - 1, b);
      assert 2 * (Pow2(a - 1) * Pow2(b)) == 2 * Pow2(a - 1) * Pow2(b);
    }
  }

  lemma HalfDiv(x: nat, p: nat)
    requires p > 0
    ensures x / 2 / p == x / (2 * p)
  {
    var q, r := x / (2 * p), x % (2 * p);
    assert q * (2 * p) == 2 * (q * p);
    assert x == 2 * (q * p) + r;
    DivModUnique(x / 2, p, q, r / 2);
  }
}
