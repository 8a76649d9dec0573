/** The definitions that the hashes are proved against, position by position as the standards number
    them. */
module HashStandards {
  import opened Bytes
  import opened Words
  import opened Keccak
  import KeccakF
  import KeccakSponge
  import Blake
  import Modular

  // ----- FIPS 202

  /** Iota of section 3.2.5 changes lane (0, 0) by the round constant, and no other bit. */
  lemma IotaIsSpec(b: Lanes, rc: Lane, x: nat, y: nat, z: nat)
    requires x < 5 && y < 5 && z < 64
    ensures Iota(b, rc)[5 * x + y][z] == if x == 0 && y == 0 then b[0][z] != rc[z] else b[5 * x + y][z]
  {
  }

  /** Chi of section 3.2.4, on any bit of the state. */
  lemma ChiIsSpec(b: Lanes, x: nat, y: nat, z: nat)
    requires x < 5 && y < 5 && z < 64
    ensures SpecChi(b)[5 * x + y][z]
            == (b[5 * x + y][z] != (!b[5 * ((x + 1) % 5) + y][z] && b[5 * ((x + 2) % 5) + y][z]))
  {
    assert 5 * x + y < 25;
    assert (5 * x + y + 5) % 25 == 5 * ((x + 1) % 5) + y;
    assert (5 * x + y + 10) % 25 == 5 * ((x + 2) % 5) + y;
  }

  /** Pi of section 3.2.3, on any lane. */
  lemma PiIsSpec(b: Lanes, x: nat, y: nat)
    requires x < 5 && y < 5
    ensures (x + 3 * y) % 5 < 5 && SpecPi(b)[5 * x + y] == b[5 * ((x + 3 * y) % 5) + x]
  {
    assert (5 * x + y) / 5 == x && (5 * x + y) % 5 == y;
  }

  /** The bits of a state in a row, as in section 3.1.3. */
  lemma FlatIsSpec(b: Lanes, x: nat, y: nat, z: nat)
    requires x < 5 && y < 5 && z < 64
    ensures KeccakSponge.Flat(b)[64 * (5 * y + x) + z] == b[5 * x + y][z]
  {
    var i := 64 * (5 * y + x) + z;
    assert i / 64 == 5 * y + x && i % 64 == z;
    assert (5 * y + x) / 5 == y && (5 * y + x) % 5 == x;
  }

  /** A block is added to the first bits of that row, as in section 4. */
  lemma XorBlockIsSpec(b: Lanes, block: Bits, i: nat)
    requires |block| % 64 == 0 && |block| <= 1600 && i < 1600
    ensures KeccakSponge.Flat(KeccakSponge.XorBlock(b, block))[i]
            == (KeccakSponge.Flat(b)[i] != (i < |block| && block[i]))
  {
    var k := i / 64;
    var at := KeccakSponge.LaneAt(k);
    var r := KeccakSponge.XorBlock(b, block);
    assert r[at] == if 64 * (k + 1) <= |block| then Xor(b[at], block[64 * k..64 * (k + 1)]) else b[at];
    hide *;
    FlatAt(b, i);
    FlatAt(r, i);
    BitInBlock(block, i);
  }

  lemma FlatAt(b: Lanes, i: nat)
    requires i < 1600
    ensures KeccakSponge.Flat(b)[i] == b[KeccakSponge.LaneAt(i / 64)][i % 64]
  {
  }

  lemma BitInBlock(block: Bits, i: nat)
    requires |block| % 64 == 0
    ensures var k := i / 64;
            && (64 * (k + 1) <= |block| <==> i < |block|)
            && (64 * (k + 1) <= |block| ==> block[64 * k..64 * (k + 1)][i % 64] == block[i])
  {
    var k := i / 64;
    assert 64 * k <= i < 64 * (k + 1);
    if i < |block| {
      assert 64 * (k + 1) <= |block|;
    }
  }

  /** The state is zero at first. */
  lemma ZeroIsSpec(i: nat)
    requires i < 1600
    ensures !KeccakSponge.Flat(KeccakSponge.Zero())[i]
  {
  }

  /** The rate of the hash with a digest of d bytes is 1600 bits less twice the digest. */
  lemma RateIsSpec(d: nat, lim: nat)
    ensures KeccakSponge.IsSize(d, lim) <==> (d == 28 || d == 32 || d == 48 || d == 64) && 8 * lim + 2 * (8 * d) == 1600
  {
  }

  /** The padding pad10*1 of section 5.1: a one, zeros and a one, up to the next multiple of the rate. */
  lemma PadIsSpec(m: Bits, r: nat, p: Bits)
    requires r >= 2
    ensures p == KeccakSponge.Pad(m, r) <==>
              && |p| % r == 0 && |m| + 2 <= |p| < |m| + 2 + r
              && p[..|m|] == m && p[|m|] && p[|p| - 1] && forall i | |m| < i < |p| - 1 :: !p[i]
  {
    var q := KeccakSponge.Pad(m, r);
    WholeIsMod(|q|, r);
    assert q[..|m|] == m;
    if |p| % r == 0 && |m| + 2 <= |p| < |m| + 2 + r && p[..|m|] == m && p[|m|] && p[|p| - 1] && forall i | |m| < i < |p| - 1 :: !p[i] {
      WholeIsMod(|p|, r);
      FillIs(|m| + 2, r, |p| - |m| - 2);
      assert |p| == |q|;
      forall i | 0 <= i < |p|
        ensures p[i] == q[i]
      {
        if i < |m| {
          assert p[i] == p[..|m|][i];
        }
      }
    }
  }

  // ----- BLAKE

  /** Bit `k` of a number, counted from the end of its binary notation. */
  lemma {:induction false} BitOf(x: nat, n: nat, k: nat)
    requires k < n
    ensures Blake.BeBits(x, n)[n - 1 - k] <==> x / Modular.Pow2(k) % 2 == 1
  {
    if k > 0 {
      BitOf(x / 2, n - 1, k - 1);
      HalfThenPower(x, k - 1);
    }
  }

  lemma HalfThenPower(x: nat, k: nat)
    ensures x / 2 / Modular.Pow2(k) == x / Modular.Pow2(k + 1)
  {
    Modular.HalfDiv(x, Modular.Pow2(k));
  }

  /** Word `i` of a digest, the most significant bit first. */
  lemma {:induction false} DigestIsSpec(h: Blake.Chain, w: nat, words: nat, i: nat)
    requires i < words <= 8
    ensures |Blake.Digest(h, w, words)| == w * words && w * i + w <= w * words
    ensures Blake.Digest(h, w, words)[w * i..w * i + w] == Blake.BeBits(h[i], w)
    decreases words
  {
    var before := Blake.Digest(h, w, words - 1);
    if i < words - 1 {
      DigestIsSpec(h, w, words - 1, i);
      assert w * words == w * (words - 1) + w;
      assert Blake.Digest(h, w, words)[w * i..w * i + w] == before[w * i..w * i + w];
    } else {
      DigestSize(h, w, i);
      assert w * words == w * i + w;
    }
  }

  lemma {:induction false} DigestSize(h: Blake.Chain, w: nat, words: nat)
    requires words <= 8
    ensures |Blake.Digest(h, w, words)| == w * words
  {
    if words > 0 {
      DigestSize(h, w, words - 1);
      assert w * words == w * (words - 1) + w;
    }
  }

  /** A one, zeros, the mark and the tail bring the message to the next multiple of `r` bits. */
  ghost predicate IsPadded(m: Bits, mark: bool, tail: Bits, r: nat, p: Bits)
    requires r > 0
  {
    var last := |p| - 1 - |tail|;
    && |p| % r == 0 && |m| < last && |p| < |m| + 2 + |tail| + r
    && p[..|m|] == m && p[|m|] && (forall i | |m| < i < last :: !p[i])
    && p[last] == mark && p[last + 1..] == tail
  }

  /** The padding of section 2.1.3 or 2.2.3 of the submission: the mark is one for the larger digests, and
      the tail is the length. */
  lemma BlakePadIsSpec(v: Blake.Variant, m: Bits, p: Bits)
    requires v.Valid()
    ensures p == Blake.Pad(v, m) <==> IsPadded(m, v.words == 8, Blake.BeBits(|m|, 2 * v.w), 16 * v.w, p)
  {
    hide Fill, Whole, Blake.BeBits, Blake.Nulls, IsPadded;
    Shape(m, v.words == 8, Blake.BeBits(|m|, 2 * v.w), 16 * v.w, p);
  }

  lemma Shape(m: Bits, mark: bool, tail: Bits, r: nat, p: Bits)
    requires r > 0
    ensures p == m + [true] + Blake.Nulls(Fill(|m| + 2 + |tail|, r)) + [mark] + tail <==> IsPadded(m, mark, tail, r, p)
  {
    hide Fill;
    var k := Fill(|m| + 2 + |tail|, r);
    var last := |p| - 1 - |tail|;
    WholeIsMod(|m| + 2 + |tail| + k, r);
    if p == m + [true] + Blake.Nulls(k) + [mark] + tail {
      assert p[..|m|] == m && p[last + 1..] == tail;
    }
    if |p| % r == 0 && |m| < last && |p| < |m| + 2 + |tail| + r {
      WholeIsMod(|p|, r);
      FillIs(|m| + 2 + |tail|, r, |p| - |m| - 2 - |tail|);
      SameShape(m, mark, tail, k, p);
    }
  }

  lemma SameShape(m: Bits, mark: bool, tail: Bits, k: nat, p: Bits)
    requires |p| == |m| + 2 + |tail| + k
    ensures var last := |p| - 1 - |tail|;
            p[..|m|] == m && p[|m|] && (forall i | |m| < i < last :: !p[i]) && p[last] == mark && p[last + 1..] == tail
            ==> p == m + [true] + Blake.Nulls(k) + [mark] + tail
  {
    var last := |p| - 1 - |tail|;
    assert p == p[..|m|] + [p[|m|]] + p[|m| + 1..last] + [p[last]] + p[last + 1..];
    if forall i | |m| < i < last :: !p[i] {
      assert p[|m| + 1..last] == Blake.Nulls(k);
    }
  }
}
