/** The 32-bit form of Keccak: a lane is kept as its even bits and its odd bits, in two words. */
module Interleave {
  import opened Words

  type Half = a: Bits | |a| == 32 witness seq(32, z => false)

  datatype Pair = Pair(l: Half, h: Half)

  /** A word written in hexadecimal, the digits from the most significant one. */
  function Hex(digits: seq<nat>): (r: Half)
    requires |digits| == 8
  {
    seq(32, z requires 0 <= z < 32 => DigitBit(digits[7 - z / 4], z % 4))
  }

  predicate DigitBit(d: nat, k: nat)
    requires k < 4
  {
    match k
    case 0 => d % 2 == 1
    case 1 => d / 2 % 2 == 1
    case 2 => d / 4 % 2 == 1
    case _ => d / 8 % 2 == 1
  }

  /** t = (l ^ (l >> n)) & m; l ^= t ^ (t << n). */
  function DeltaSwap(l: Half, m: Half, n: nat): Half {
    var t := And(Xor(l, Shr(l, n)), m);
    Xor(l, Xor(t, Shl(t, n)))
  }

  const M1: seq<nat> := [2, 2, 2, 2, 2, 2, 2, 2]
  const M2: seq<nat> := [0, 0xC, 0, 0xC, 0, 0xC, 0, 0xC]
  const M4: seq<nat> := [0, 0, 0xF, 0, 0, 0, 0xF, 0]
  const M8: seq<nat> := [0, 0, 0, 0, 0xF, 0xF, 0, 0]
  const MT: seq<nat> := [0xF, 0xF, 0xF, 0xF, 0, 0, 0, 0]

  /** t = (l ^ (h << 16)) & 0xFFFF0000; l ^= t; h ^= t >> 16. */
  function HalfSwap(p: Pair): Pair {
    var t := And(Xor(p.l, Shl(p.h, 16)), Hex(MT));
    Pair(Xor(p.l, t), Xor(p.h, Shr(t, 16)))
  }

  function Both(p: Pair, m: Half, n: nat): Pair {
    Pair(DeltaSwap(p.l, m, n), DeltaSwap(p.h, m, n))
  }

  /** The INTERLEAVE macro. */
  function Interleaved(p: Pair): Pair {
    HalfSwap(Both(Both(Both(Both(p, Hex(M1), 1), Hex(M2), 2), Hex(M4), 4), Hex(M8), 8))
  }

  /** The UNINTERLEAVE macro. */
  function Uninterleaved(p: Pair): Pair {
    Both(Both(Both(Both(HalfSwap(p), Hex(M8), 8), Hex(M4), 4), Hex(M2), 2), Hex(M1), 1)
  }

  // ----- What the swaps do to bits

  /** Where bit `z` comes from when the bits in `m` trade places with those `n` higher. */
  function Source(m: Half, n: nat, z: nat): nat
    requires z < 32
  {
    if m[z] then z + n else if n <= z && m[z - n] then z - n else z
  }

  /** No bit of the mask is moved out of the word, nor onto another bit of the mask. */
  ghost predicate Swaps(m: Half, n: nat) {
    forall z | 0 <= z < 32 && m[z] :: z + n < 32 && !m[z + n]
  }

  lemma DeltaSwapBit(l: Half, m: Half, n: nat, z: nat)
    requires z < 32 && Swaps(m, n)
    ensures Source(m, n, z) < 32 && DeltaSwap(l, m, n)[z] == l[Source(m, n, z)]
  {
    if n <= z && m[z - n] {
      assert !m[z - n + n];
    }
  }

  lemma DeltaSwapTwice(l: Half, m: Half, n: nat)
    requires Swaps(m, n)
    ensures DeltaSwap(DeltaSwap(l, m, n), m, n) == l
  {
    hide DeltaSwap, Source;
    forall z | 0 <= z < 32
      ensures DeltaSwap(DeltaSwap(l, m, n), m, n)[z] == l[z]
    {
      DeltaSwapBit(DeltaSwap(l, m, n), m, n, z);
      DeltaSwapBit(l, m, n, Source(m, n, z));
      SourceTwice(m, n, z);
    }
  }

  lemma SourceTwice(m: Half, n: nat, z: nat)
    requires z < 32 && Swaps(m, n)
    ensures Source(m, n, z) < 32 && Source(m, n, Source(m, n, z)) == z
  {
    if m[z] {
      assert !m[z + n];
    } else if n <= z && m[z - n] {
      assert !m[z - n + n];
    }
  }

  lemma HalfSwapBit(p: Pair, z: nat)
    requires z < 32
    ensures HalfSwap(p).l[z] == if z < 16 then p.l[z] else p.h[z - 16]
    ensures HalfSwap(p).h[z] == if z < 16 then p.l[z + 16] else p.h[z]
  {
    hide Hex;
    MaskT();
  }

  lemma HalfSwapTwice(p: Pair)
    ensures HalfSwap(HalfSwap(p)) == p
  {
    hide HalfSwap;
    var q := HalfSwap(p);
    forall z | 0 <= z < 32
      ensures HalfSwap(q).l[z] == p.l[z] && HalfSwap(q).h[z] == p.h[z]
    {
      HalfSwapBit(q, z);
      if z < 16 {
        HalfSwapBit(p, z);
        HalfSwapBit(p, z + 16);
      } else {
        HalfSwapBit(p, z);
        HalfSwapBit(p, z - 16);
      }
    }
    SamePair(HalfSwap(q), p);
  }

  lemma SamePair(p: Pair, q: Pair)
    requires forall z | 0 <= z < 32 :: p.l[z] == q.l[z] && p.h[z] == q.h[z]
    ensures p == q
  {
    assert p.l == q.l && p.h == q.h;
  }

  // ----- The masks

  lemma MaskT() ensures forall z | 0 <= z < 32 :: Hex(MT)[z] == (16 <= z) {}
  lemma Mask1() ensures forall z | 0 <= z < 32 :: Hex(M1)[z] == (z % 4 == 1) {}
  lemma Mask2() ensures forall z | 0 <= z < 32 :: Hex(M2)[z] == (2 <= z % 8 < 4) {}
  lemma Mask4() ensures forall z | 0 <= z < 32 :: Hex(M4)[z] == (4 <= z % 16 < 8) {}
  lemma Mask8() ensures forall z | 0 <= z < 32 :: Hex(M8)[z] == (8 <= z < 16) {}

  lemma AllSwap()
    ensures Swaps(Hex(M1), 1) && Swaps(Hex(M2), 2) && Swaps(Hex(M4), 4) && Swaps(Hex(M8), 8)
  {
    hide Hex;
    Mask1();
    Mask2();
    Mask4();
    Mask8();
  }

  /** The four swaps of INTERLEAVE on one word gather its even bits below its odd bits. */
  function Gathered(l: Half): Half {
    DeltaSwap(DeltaSwap(DeltaSwap(DeltaSwap(l, Hex(M1), 1), Hex(M2), 2), Hex(M4), 4), Hex(M8), 8)
  }

  function GatherSource(z: nat): nat
    requires z < 32
  {
    if z < 16 then 2 * z else 2 * (z - 16) + 1
  }

  lemma GatheredBit(l: Half, z: nat)
    requires z < 32
    ensures Gathered(l)[z] == l[GatherSource(z)]
  {
    hide DeltaSwap, Source, Swaps, Hex, GatherSource;
    AllSwap();
    var l1 := DeltaSwap(l, Hex(M1), 1);
    var l2 := DeltaSwap(l1, Hex(M2), 2);
    var l4 := DeltaSwap(l2, Hex(M4), 4);
    DeltaSwapBit(l4, Hex(M8), 8, z);
    var z8 := Source(Hex(M8), 8, z);
    DeltaSwapBit(l2, Hex(M4), 4, z8);
    var z4 := Source(Hex(M4), 4, z8);
    DeltaSwapBit(l1, Hex(M2), 2, z4);
    var z2 := Source(Hex(M2), 2, z4);
    DeltaSwapBit(l, Hex(M1), 1, z2);
    Sources(z);
  }

  lemma Sources(z: nat)
    requires z < 32
    ensures var z8 := Source(Hex(M8), 8, z);
            z8 < 32
            && var z4 := Source(Hex(M4), 4, z8);
            z4 < 32
            && var z2 := Source(Hex(M2), 2, z4);
            z2 < 32 && Source(Hex(M1), 1, z2) == GatherSource(z)
  {
    hide Source, Hex, GatherSource;
    SourceAt8(z);
    SourceAt4(Swap8(z));
    SourceAt2(Swap4(Swap8(z)));
    SourceAt1(Swap2(Swap4(Swap8(z))));
    SwapsGather(z);
  }

  function Swap1(z: nat): nat { if z % 4 == 1 then z + 1 else if z % 4 == 2 then z - 1 else z }
  function Swap2(z: nat): nat { if 2 <= z % 8 < 4 then z + 2 else if 4 <= z % 8 < 6 then z - 2 else z }
  function Swap4(z: nat): nat { if 4 <= z % 16 < 8 then z + 4 else if 8 <= z % 16 < 12 then z - 4 else z }
  function Swap8(z: nat): nat { if 8 <= z < 16 then z + 8 else if 16 <= z < 24 then z - 8 else z }

  lemma SourceAt1(z: nat)
    requires z < 32
    ensures Source(Hex(M1), 1, z) == Swap1(z)
  {
    hide Hex;
    Mask1();
  }

  lemma SourceAt2(z: nat)
    requires z < 32
    ensures Source(Hex(M2), 2, z) == Swap2(z)
  {
    hide Hex;
    Mask2();
  }

  lemma SourceAt4(z: nat)
    requires z < 32
    ensures Source(Hex(M4), 4, z) == Swap4(z)
  {
    hide Hex;
    Mask4();
  }

  lemma SourceAt8(z: nat)
    requires z < 32
    ensures Source(Hex(M8), 8, z) == Swap8(z)
  {
    hide Hex;
    Mask8();
  }

  predicate AreBits(a: nat, b: nat, c: nat, d: nat, e: nat) {
    a < 2 && b < 2 && c < 2 && d < 2 && e < 2
  }

  /** Each swap lets two neighbouring bits of the index trade places. */
  lemma SwapBits(a: nat, b: nat, c: nat, d: nat, e: nat)
    requires AreBits(a, b, c, d, e)
    ensures Swap8(16 * a + 8 * b + 4 * c + 2 * d + e) == 16 * b + 8 * a + 4 * c + 2 * d + e
    ensures Swap4(16 * a + 8 * b + 4 * c + 2 * d + e) == 16 * a + 8 * c + 4 * b + 2 * d + e
    ensures Swap2(16 * a + 8 * b + 4 * c + 2 * d + e) == 16 * a + 8 * b + 4 * d + 2 * c + e
    ensures Swap1(16 * a + 8 * b + 4 * c + 2 * d + e) == 16 * a + 8 * b + 4 * c + 2 * e + d
  {
    var z := 16 * a + 8 * b + 4 * c + 2 * d + e;
    assert z % 16 == 8 * b + 4 * c + 2 * d + e && z % 8 == 4 * c + 2 * d + e && z % 4 == 2 * d + e;
  }

  lemma IndexBits(z: nat) returns (a: nat, b: nat, c: nat, d: nat, e: nat)
    requires z < 32
    ensures AreBits(a, b, c, d, e) && z == 16 * a + 8 * b + 4 * c + 2 * d + e
  {
    var z1, z2, z3 := z / 2, z / 2 / 2, z / 2 / 2 / 2;
    a, b, c, d, e := z3 / 2, z3 % 2, z2 % 2, z1 % 2, z % 2;
  }

  /** The four swaps carry the top bit of the index down to the bottom. */
  lemma SwapsGather(z: nat)
    requires z < 32
    ensures Swap8(z) < 32 && Swap4(Swap8(z)) < 32 && Swap2(Swap4(Swap8(z))) < 32
    ensures Swap1(Swap2(Swap4(Swap8(z)))) == GatherSource(z)
  {
    hide Swap1, Swap2, Swap4, Swap8;
    var a, b, c, d, e := IndexBits(z);
    SwapBits(a, b, c, d, e);
    SwapBits(b, a, c, d, e);
    SwapBits(b, c, a, d, e);
    SwapBits(b, c, d, a, e);
  }

  // ----- Even and odd bits

  /** A lane as two words, the low half first. */
  function Joined(p: Pair): (w: Word64) { p.l + p.h }

  function Even(w: Word64): (r: Half) { seq(32, k requires 0 <= k < 32 => w[2 * k]) }
  function Odd(w: Word64): (r: Half) { seq(32, k requires 0 <= k < 32 => w[2 * k + 1]) }
  function Split(w: Word64): Pair { Pair(Even(w), Odd(w)) }

  /** INTERLEAVE puts the even bits of a lane in one word and the odd bits in the other. */
  lemma InterleaveSplits(p: Pair)
    ensures Interleaved(p) == Split(Joined(p))
  {
    hide DeltaSwap, Hex, HalfSwap, Gathered;
    var q := Pair(Gathered(p.l), Gathered(p.h));
    InterleavedGathers(p);
    forall z | 0 <= z < 32
      ensures HalfSwap(q).l[z] == Split(Joined(p)).l[z] && HalfSwap(q).h[z] == Split(Joined(p)).h[z]
    {
      HalfSwapBit(q, z);
      GatheredBit(p.l, if z < 16 then z else z - 16);
      GatheredBit(p.h, if z < 16 then z else z - 16);
      GatheredBit(p.l, if z < 16 then z + 16 else z);
      GatheredBit(p.h, if z < 16 then z + 16 else z);
    }
    SamePair(HalfSwap(q), Split(Joined(p)));
  }

  lemma InterleavedGathers(p: Pair)
    ensures Interleaved(p) == HalfSwap(Pair(Gathered(p.l), Gathered(p.h)))
  {
    hide DeltaSwap, Hex, HalfSwap;
  }

  lemma BothTwice(p: Pair, m: Half, n: nat)
    requires Swaps(m, n)
    ensures Both(Both(p, m, n), m, n) == p
  {
    hide DeltaSwap, Swaps;
    DeltaSwapTwice(p.l, m, n);
    DeltaSwapTwice(p.h, m, n);
  }

  /** UNINTERLEAVE undoes INTERLEAVE. */
  lemma UninterleaveInterleave(p: Pair)
    ensures Uninterleaved(Interleaved(p)) == p
  {
    hide Both, Hex, HalfSwap, Swaps;
    AllSwap();
    var p1 := Both(p, Hex(M1), 1);
    var p2 := Both(p1, Hex(M2), 2);
    var p4 := Both(p2, Hex(M4), 4);
    var p8 := Both(p4, Hex(M8), 8);
    HalfSwapTwice(p8);
    BothTwice(p4, Hex(M8), 8);
    BothTwice(p2, Hex(M4), 4);
    BothTwice(p1, Hex(M2), 2);
    BothTwice(p, Hex(M1), 1);
  }

  /** And INTERLEAVE undoes UNINTERLEAVE. */
  lemma InterleaveUninterleave(p: Pair)
    ensures Interleaved(Uninterleaved(p)) == p
  {
    hide Both, Hex, HalfSwap, Swaps;
    AllSwap();
    var p8 := Both(HalfSwap(p), Hex(M8), 8);
    var p4 := Both(p8, Hex(M4), 4);
    var p2 := Both(p4, Hex(M2), 2);
    BothTwice(p2, Hex(M1), 1);
    BothTwice(p4, Hex(M2), 2);
    BothTwice(p8, Hex(M4), 4);
    BothTwice(HalfSwap(p), Hex(M8), 8);
    HalfSwapTwice(p);
  }

  // ----- Rotations

  /** (v << n) | (v >> m). */
  function Shifts(v: Half, n: nat, m: nat): Half { Or(Shl(v, n), Shr(v, m)) }

  function RolOdd1(v: Pair): Pair { Pair(Shifts(v.h, 1, 31), v.l) }
  function RolOdd63(v: Pair): Pair { Pair(v.h, Shifts(v.l, 31, 1)) }

  function RolOdd(v: Pair, n: nat): Pair
    requires 1 < n < 32
  {
    Pair(Shifts(v.h, n, 32 - n), Shifts(v.l, n - 1, 33 - n))
  }

  function RolEven(v: Pair, n: nat): Pair
    requires 0 < n < 32
  {
    Pair(Shifts(v.l, n, 32 - n), Shifts(v.h, n, 32 - n))
  }

  /** ROL64 by `n` in the interleaved form. */
  function Rol64(v: Pair, n: nat): Pair
    requires n < 64
  {
    if n == 0 then v
    else if n == 1 then RolOdd1(v)
    else if n == 63 then RolOdd63(v)
    else if n % 2 == 1 then RolOdd(v, (n + 1) / 2)
    else RolEven(v, n / 2)
  }

  /** Rotating the two interleaved words as the code does is the rotation of the 64-bit lane. */
  lemma InterleavedRotation(w: Word64, n: nat)
    requires n < 64
    ensures Rol64(Split(w), n) == Split(Rotl(w, n))
  {
    hide Rotl, Rol64, Split;
    forall k | 0 <= k < 32
      ensures Rol64(Split(w), n).l[k] == Split(Rotl(w, n)).l[k]
      ensures Rol64(Split(w), n).h[k] == Split(Rotl(w, n)).h[k]
    {
      if n % 2 == 0 {
        EvenRotation(w, n / 2, k);
      } else {
        OddRotation(w, n / 2, k);
      }
    }
    SamePair(Rol64(Split(w), n), Split(Rotl(w, n)));
  }

  lemma EvenRotation(w: Word64, m: nat, k: nat)
    requires m < 32 && k < 32
    ensures Rol64(Split(w), 2 * m).l[k] == Split(Rotl(w, 2 * m)).l[k]
    ensures Rol64(Split(w), 2 * m).h[k] == Split(Rotl(w, 2 * m)).h[k]
  {
    hide Rotl;
    var r := Rotl(w, 2 * m);
    assert r[2 * k] == w[if m <= k then 2 * (k - m) else 2 * (k + 32 - m)];
    assert r[2 * k + 1] == w[if m <= k then 2 * (k - m) + 1 else 2 * (k + 32 - m) + 1];
  }

  function RolByOdd(v: Pair, m: nat): Pair
    requires m < 32
  {
    if m == 0 then RolOdd1(v) else if m == 31 then RolOdd63(v) else RolOdd(v, m + 1)
  }

  lemma RolOddForm(v: Pair, m: nat)
    requires m < 32
    ensures Rol64(v, 2 * m + 1) == RolByOdd(v, m)
  {
    hide Shifts;
    assert (2 * m + 1) % 2 == 1 && (2 * m + 2) / 2 == m + 1;
  }

  lemma RolByOddBit(v: Pair, m: nat, k: nat)
    requires m < 32 && k < 32
    ensures RolByOdd(v, m).l[k] == if m < k then v.h[k - m - 1] else v.h[k + 31 - m]
    ensures RolByOdd(v, m).h[k] == if m <= k then v.l[k - m] else v.l[k + 32 - m]
  {
  }

  lemma OddRotation(w: Word64, m: nat, k: nat)
    requires m < 32 && k < 32
    ensures Rol64(Split(w), 2 * m + 1).l[k] == Split(Rotl(w, 2 * m + 1)).l[k]
    ensures Rol64(Split(w), 2 * m + 1).h[k] == Split(Rotl(w, 2 * m + 1)).h[k]
  {
    hide Rotl, Rol64, RolByOdd;
    RolOddForm(Split(w), m);
    RolByOddBit(Split(w), m, k);
    var r := Rotl(w, 2 * m + 1);
    assert r[2 * k] == w[if m < k then 2 * (k - m - 1) + 1 else 2 * (k + 31 - m) + 1];
    assert r[2 * k + 1] == w[if m <= k then 2 * (k - m) else 2 * (k + 32 - m)];
  }

  // ----- Rotations without interleaving

  function Halves(w: Word64): Pair { Pair(w[..32], w[32..]) }

  function RolSmall(v: Pair, n: nat): Pair
    requires 0 < n < 32
  {
    Pair(Or(Shl(v.l, n), Shr(v.h, 32 - n)), Or(Shl(v.h, n), Shr(v.l, 32 - n)))
  }

  /** ROL64 by `n` on the two halves of a lane. */
  function Rol64Halves(v: Pair, n: nat): Pair
    requires 0 < n < 64
  {
    if n < 32 then RolSmall(v, n)
    else if n == 32 then Pair(v.h, v.l)
    else var t := RolSmall(v, n - 32); Pair(t.h, t.l)
  }

  lemma HalvesRotation(w: Word64, n: nat)
    requires 0 < n < 64
    ensures Rol64Halves(Halves(w), n) == Halves(Rotl(w, n))
  {
    hide Rotl;
    SamePair(Rol64Halves(Halves(w), n), Halves(Rotl(w, n)));
  }

  // ----- The other operations of a round

  /** XOR64, AND64, OR64 and NOT64 on the two words are the operations on the lane. */
  lemma SplitCommutes(a: Word64, b: Word64)
    ensures Split(Xor(a, b)) == Pair(Xor(Even(a), Even(b)), Xor(Odd(a), Odd(b)))
    ensures Split(And(a, b)) == Pair(And(Even(a), Even(b)), And(Odd(a), Odd(b)))
    ensures Split(Or(a, b)) == Pair(Or(Even(a), Even(b)), Or(Odd(a), Odd(b)))
    ensures Split(Not(a)) == Pair(Not(Even(a)), Not(Odd(a)))
  {
    hide Xor, And, Or, Not;
    SamePair(Split(Xor(a, b)), Pair(Xor(Even(a), Even(b)), Xor(Odd(a), Odd(b))));
    SamePair(Split(And(a, b)), Pair(And(Even(a), Even(b)), And(Odd(a), Odd(b))));
    SamePair(Split(Or(a, b)), Pair(Or(Even(a), Even(b)), Or(Odd(a), Odd(b))));
    SamePair(Split(Not(a)), Pair(Not(Even(a)), Not(Odd(a))));
  }
}
