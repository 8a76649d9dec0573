/** Strings of bytes as strings of bits, and lengths that are whole numbers of blocks. */
module Bytes {
  import opened Words
  import Modular

  /** Eight bits, in the order in which a hash function takes them. */
  type Byte = a: Bits | |a| == 8 witness seq(8, z => false)

  const NUL: Byte := [false, false, false, false, false, false, false, false]

  function BitsOf(m: seq<Byte>): (r: Bits)
    ensures |r| == 8 * |m|
    ensures forall i | 0 <= i < 8 * |m| :: r[i] == m[i / 8][i % 8]
  {
    seq(8 * |m|, i requires 0 <= i < 8 * |m| => m[i / 8][i % 8])
  }

  lemma BitsOfConcat(a: seq<Byte>, b: seq<Byte>)
    ensures BitsOf(a + b) == BitsOf(a) + BitsOf(b)
  {
    hide BitsOf;
    forall i | 0 <= i < 8 * |a + b|
      ensures BitsOf(a + b)[i] == (BitsOf(a) + BitsOf(b))[i]
    {
      if 8 * |a| <= i {
        assert i / 8 - |a| == (i - 8 * |a|) / 8 && (i - 8 * |a|) % 8 == i % 8;
      }
    }
  }

  /** `n` is a whole number of times `r`. */
  predicate Whole(n: nat, r: nat) {
    if n == 0 then r > 0 else 0 < r <= n && Whole(n - r, r)
  }

  lemma {:induction false} WholeIsMod(n: nat, r: nat)
    requires r > 0
    ensures Whole(n, r) <==> n % r == 0
  {
    if n == 0 {
      Modular.SmallMod(0, r);
    } else if n < r {
      Modular.SmallMod(n, r);
    } else {
      WholeIsMod(n - r, r);
      Modular.OneMore(n - r, r);
    }
  }

  lemma {:induction false} WholeEight(n: nat, r: nat)
    requires Whole(n, r)
    ensures Whole(8 * n, 8 * r)
  {
    if n > 0 {
      WholeEight(n - r, r);
    }
  }

  lemma {:induction false} WholeSum(a: nat, b: nat, r: nat)
    requires Whole(a, r)
    ensures Whole(a + b, r) <==> Whole(b, r)
  {
    if a > 0 {
      WholeSum(a - r, b, r);
    }
  }

  /** What is missing from `n` to a whole number of times `r`. */
  function Fill(n: nat, r: nat): (z: nat)
    requires r > 0
    ensures z < r && Whole(n + z, r)
  {
    FillWorks(n, r);
    WholeIsMod(n + (r - n % r) % r, r);
    (r - n % r) % r
  }

  lemma FillWorks(n: nat, r: nat)
    requires r > 0
    ensures 0 <= (r - n % r) % r < r && (n + (r - n % r) % r) % r == 0
  {
    var t := n % r;
    if t == 0 {
      Modular.MultipleMod(1, r);
    } else {
      Modular.SmallMod(r - t, r);
      assert n + (r - t) == n / r * r + r;
      assert n / r * r + r == (n / r + 1) * r;
      Modular.MultipleMod(n / r + 1, r);
    }
  }

  lemma FillIs(n: nat, r: nat, z: nat)
    requires z < r && Whole(n + z, r)
    ensures Fill(n, r) == z
  {
    hide Fill, Whole;
    var y := Fill(n, r);
    WholeIsMod(n + z, r);
    WholeIsMod(n + y, r);
    var k, j := (n + z) / r, (n + y) / r;
    assert n + z == k * r && n + y == j * r;
    assert (k - j) * r == z - y && (j - k) * r == y - z;
    if k > j {
      Modular.MulAtLeast(k - j, r);
      assert false;
    }
    if j > k {
      Modular.MulAtLeast(j - k, r);
      assert false;
    }
  }
}
