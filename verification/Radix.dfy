/** Numbers written in a base, the most significant digit first. */
module Radix {
  import Modular

  ghost predicate AreDigits(base: nat, ds: seq<nat>) {
    forall i | 0 <= i < |ds| :: ds[i] < base
  }

  function Num(base: nat, ds: seq<nat>): nat {
    if |ds| == 0 then 0 else Num(base, ds[..|ds| - 1]) * base + ds[|ds| - 1]
  }

  /** The digits of a number, without leading zeros; none for zero. */
  function Digits(base: nat, n: nat): (ds: seq<nat>)
    requires base >= 2
    ensures forall i | 0 <= i < |ds| :: ds[i] < base
    ensures n > 0 ==> |ds| > 0
    ensures n == 0 ==> ds == []
  {
    if n == 0 then [] else
      Smaller(base, n);
      Digits(base, n / base) + [n % base]
  }

  lemma Smaller(base: nat, n: nat)
    requires base >= 2 && n > 0
    ensures n / base < n
  {
    var q := n / base;
    assert n == q * base + n % base;
    Modular.MulAtMost(2, base, q);
    assert base * q == q * base;
  }

  lemma NumNone(base: nat)
    ensures Num(base, []) == 0
  {
  }

  lemma NumStep(base: nat, ds: seq<nat>, d: nat)
    ensures Num(base, ds + [d]) == Num(base, ds) * base + d
  {
    assert (ds + [d])[..|ds|] == ds;
  }

  lemma DigitsStep(base: nat, n: nat)
    requires base >= 2 && n > 0
    ensures n / base < n && Digits(base, n) == Digits(base, n / base) + [n % base]
  {
    Smaller(base, n);
  }

  lemma {:induction false} NumDigits(base: nat, n: nat)
    requires base >= 2
    ensures Num(base, Digits(base, n)) == n
  {
    hide Num, Digits;
    if n > 0 {
      DigitsStep(base, n);
      NumDigits(base, n / base);
      NumStep(base, Digits(base, n / base), n % base);
    } else {
      NumNone(base);
    }
  }

  lemma {:induction false} FirstDigit(base: nat, n: nat)
    requires base >= 2 && n > 0
    ensures Digits(base, n)[0] > 0
  {
    Smaller(base, n);
    if n / base > 0 {
      FirstDigit(base, n / base);
    } else {
      assert n == n / base * base + n % base;
    }
  }

  lemma {:induction false} NumZero(base: nat, ds: seq<nat>)
    requires base >= 2 && AreDigits(base, ds)
    ensures Num(base, ds) == 0 <==> forall i | 0 <= i < |ds| :: ds[i] == 0
  {
    if |ds| > 0 {
      var n := |ds| - 1;
      NumZero(base, ds[..n]);
      if Num(base, ds[..n]) > 0 {
        Modular.MulAtLeast(Num(base, ds[..n]), base);
        var i :| 0 <= i < n && ds[..n][i] != 0;
        assert ds[i] != 0;
      }
    }
  }

  /** Digits that do not start with zero are those of their number. */
  lemma {:induction false} DigitsNum(base: nat, ds: seq<nat>)
    requires base >= 2 && AreDigits(base, ds) && (|ds| > 0 ==> ds[0] > 0)
    ensures Digits(base, Num(base, ds)) == ds
  {
    if |ds| > 0 {
      var n := |ds| - 1;
      DigitsNum(base, ds[..n]);
      NumZero(base, ds);
      Modular.DivModUnique(Num(base, ds), base, Num(base, ds[..n]), ds[n]);
      Smaller(base, Num(base, ds));
      assert ds == ds[..n] + [ds[n]];
    }
  }

  function Zeros(n: nat): (z: seq<nat>)
    ensures |z| == n && forall i | 0 <= i < n :: z[i] == 0
  {
    seq(n, i => 0)
  }

  lemma {:induction false} LeadingZeros(base: nat, k: nat, ds: seq<nat>)
    ensures Num(base, Zeros(k) + ds) == Num(base, ds)
  {
    if |ds| > 0 {
      var n := |ds| - 1;
      LeadingZeros(base, k, ds[..n]);
      assert (Zeros(k) + ds)[..|Zeros(k) + ds| - 1] == Zeros(k) + ds[..n];
    } else if k > 0 {
      LeadingZeros(base, k - 1, ds);
      assert (Zeros(k) + ds)[..|Zeros(k) + ds| - 1] == Zeros(k - 1) + ds;
    }
  }

  /** How many zeros the digits start with. */
  function ZeroCount(ds: seq<nat>): (k: nat)
    ensures k <= |ds|
    ensures k < |ds| ==> ds[k] != 0
    ensures forall i | 0 <= i < k :: ds[i] == 0
  {
    if |ds| == 0 || ds[0] != 0 then 0 else 1 + ZeroCount(ds[1..])
  }

  /** Any digits are some zeros and the digits of their number. */
  lemma Normal(base: nat, ds: seq<nat>)
    requires base >= 2 && AreDigits(base, ds)
    ensures ds == Zeros(ZeroCount(ds)) + Digits(base, Num(base, ds))
  {
    var k := ZeroCount(ds);
    assert ds == Zeros(k) + ds[k..];
    LeadingZeros(base, k, ds[k..]);
    DigitsNum(base, ds[k..]);
  }

  lemma {:induction false} ZeroCountIs(k: nat, ds: seq<nat>)
    requires |ds| > 0 ==> ds[0] != 0
    ensures ZeroCount(Zeros(k) + ds) == k
  {
    if k > 0 {
      ZeroCountIs(k - 1, ds);
      assert (Zeros(k) + ds)[1..] == Zeros(k - 1) + ds;
    } else {
      assert Zeros(0) + ds == ds;
    }
  }

  // ----- Powers and the parts of a number

  function Pow(base: nat, n: nat): (p: nat)
    requires base > 0
    ensures p > 0
  {
    if n == 0 then 1
    else
      Modular.MulAtLeast(Pow(base, n - 1), base);
      Pow(base, n - 1) * base
  }

  lemma {:induction false} PowSum(base: nat, a: nat, b: nat)
    requires base > 0
    ensures Pow(base, a + b) == Pow(base, a) * Pow(base, b)
  {
    if b > 0 {
      PowSum(base, a, b - 1);
      assert Pow(base, a) * Pow(base, b - 1) * base == Pow(base, a) * (Pow(base, b - 1) * base);
    }
  }

  lemma {:induction false} NumBelow(base: nat, ds: seq<nat>)
    requires base >= 2 && AreDigits(base, ds)
    ensures Num(base, ds) < Pow(base, |ds|)
  {
    if |ds| > 0 {
      var n := |ds| - 1;
      NumBelow(base, ds[..n]);
      var a, p := Num(base, ds[..n]), Pow(base, n);
      Modular.MulAtMost(a + 1, p, base);
      assert (a + 1) * base == a * base + base;
    }
  }

  /** Digits written one after the other. */
  lemma {:induction false} NumConcat(base: nat, a: seq<nat>, b: seq<nat>)
    requires base > 0
    ensures Num(base, a + b) == Num(base, a) * Pow(base, |b|) + Num(base, b)
  {
    if |b| == 0 {
      assert a + b == a;
    } else {
      var n := |b| - 1;
      NumConcat(base, a, b[..n]);
      assert (a + b)[..|a + b| - 1] == a + b[..n];
      var x, p, y := Num(base, a), Pow(base, n), Num(base, b[..n]);
      assert (x * p + y) * base == x * p * base + y * base;
      assert x * p * base == x * (p * base);
    }
  }
}
