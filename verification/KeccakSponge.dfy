/** The streaming Keccak hash against the sponge of section 4 of FIPS 202: buffering, padding
    and lane complement give the first bits of KECCAK[c] on the message. */
module KeccakSponge {
  import opened Bytes
  import opened Words
  import opened Keccak
  import opened KeccakF

  // ----- The sponge of FIPS 202, on bits

  /** The lane that word `k` of the flat state is: 5y + x = k. */
  function LaneAt(k: nat): (i: nat)
    requires k < 25
    ensures i < 25
  {
    5 * (k % 5) + k / 5
  }

  lemma LaneAtTwice(k: nat)
    requires k < 25
    ensures LaneAt(LaneAt(k)) == k
  {
    var x, y := k % 5, k / 5;
    assert LaneAt(k) == 5 * x + y;
    assert (5 * x + y) % 5 == y && (5 * x + y) / 5 == x;
  }

  function Zero(): Lanes {
    seq(25, i => seq(64, z => false))
  }

  /** The state with a block of a whole number of words added to its first bits. */
  function XorBlock(b: Lanes, block: Bits): (r: Lanes)
    requires |block| % 64 == 0 && |block| <= 1600
    ensures forall k | 0 <= k < 25 :: r[LaneAt(k)] ==
              if 64 * (k + 1) <= |block| then Xor(b[LaneAt(k)], block[64 * k..64 * (k + 1)]) else b[LaneAt(k)]
  {
    forall k | 0 <= k < 25
      ensures LaneAt(LaneAt(k)) == k
    {
      LaneAtTwice(k);
    }
    seq(25, i requires 0 <= i < 25 => XorWord(b[i], block, LaneAt(i)))
  }

  function XorWord(a: Lane, block: Bits, k: nat): Lane
    requires |block| % 64 == 0
  {
    if 64 * (k + 1) <= |block| then Xor(a, block[64 * k..64 * (k + 1)]) else a
  }

  /** A whole number of words, and no more than the state. */
  predicate IsRate(r: nat) {
    0 < r <= 1600 && r % 64 == 0
  }

  function Absorb(p: Bits, r: nat, rc: seq<Lane>): Lanes
    requires IsRate(r) && Whole(|p|, r) && |rc| == 24
    decreases |p|
  {
    if |p| == 0 then Zero()
    else
      SpecRounds(XorBlock(Absorb(p[..|p| - r], r, rc), p[|p| - r..]), rc, |rc|)
  }

  /** pad10*1: a one, as few zeros as it takes, and a one. */
  function Pad(m: Bits, r: nat): (p: Bits)
    requires r > 0
    ensures Whole(|p|, r)
  {
    m + [true] + seq(Fill(|m| + 2, r), i => false) + [true]
  }

  /** The flat state: the words in the order of 5y + x. */
  function Flat(b: Lanes): (f: Bits)
    ensures |f| == 1600
  {
    seq(1600, i requires 0 <= i < 1600 => b[LaneAt(i / 64)][i % 64])
  }

  /** KECCAK[c] of the message, cut to `n` bits; `r` is the rate, 1600 - c. */
  function SpecDigest(m: Bits, r: nat, n: nat, rc: seq<Lane>): Bits
    requires IsRate(r) && n <= r && |rc| == 24
  {
    Flat(Absorb(Pad(m, r), r, rc))[..n]
  }

  // ----- Lane complement through the sponge

  lemma XorBlockOfComplement(b: Lanes, block: Bits)
    requires |block| % 64 == 0 && |block| <= 1600
    ensures XorBlock(Complement(b, Kept), block) == Complement(XorBlock(b, block), Kept)
  {
    hide XorBlock, Complement, Kept, Xor, Flip, LaneAt;
    forall i | 0 <= i < 25
      ensures XorBlock(Complement(b, Kept), block)[i] == Complement(XorBlock(b, block), Kept)[i]
    {
      LaneAtTwice(i);
      var k := LaneAt(i);
      assert i == LaneAt(k);
      if 64 * (k + 1) <= |block| {
        XorOfFlip(Kept(i), b[i], block[64 * k..64 * (k + 1)]);
      }
    }
  }

  lemma XorOfFlip(c: bool, a: Bits, d: Bits)
    requires |a| == |d|
    ensures Xor(Flip(c, a), d) == Flip(c, Xor(a, d))
  {
    hide Xor, Flip;
  }

  lemma ComplementTwice(b: Lanes)
    ensures Complement(Complement(b, Kept), Kept) == b
  {
    hide Complement, Kept, Flip;
    forall i | 0 <= i < 25
      ensures Complement(Complement(b, Kept), Kept)[i] == b[i]
    {
      assert forall z | 0 <= z < 64 :: Flip(Kept(i), Flip(Kept(i), b[i]))[z] == b[i][z];
    }
  }

  /** One block through the code, on complemented lanes, is one block of the sponge. */
  lemma BlockStep(p: Bits, block: Bits, r: nat, rc: seq<Lane>)
    requires IsRate(r) && Whole(|p|, r) && |rc| == 24 && |block| == r
    ensures Whole(|p + block|, r)
    ensures CodeRounds(XorBlock(Complement(Absorb(p, r, rc), Kept), block), rc, |rc|)
            == Complement(Absorb(p + block, r, rc), Kept)
  {
    hide XorBlock, Complement, CodeRounds, SpecRounds;
    var q := p + block;
    assert q[..|q| - r] == p && q[|q| - r..] == block;
    XorBlockOfComplement(Absorb(p, r, rc), block);
    RoundsOfComplement(XorBlock(Absorb(p, r, rc), block), rc, |rc|);
  }

  // ----- The code

  /** Bytes of the output, and of a block. */
  predicate IsSize(d: nat, lim: nat) {
    (d == 28 && lim == 144) || (d == 32 && lim == 136) || (d == 48 && lim == 104) || (d == 64 && lim == 72)
  }

  /** The 64-bit word read little-endian from eight bytes. */
  function Dec64(buf: seq<Byte>, at: nat): Lane
    requires at + 8 <= |buf|
  {
    BitsOf(buf[at..at + 8])
  }

  /** INPUT_BUF: adds the `lim` first bytes of the buffer to the state, word by word. */
  method InputBuf(wide: Lanes, buf: seq<Byte>, lim: nat) returns (v: Lanes)
    requires IsRate(8 * lim) && lim <= |buf|
    ensures v == XorBlock(wide, BitsOf(buf[..lim]))
  {
    hide BitsOf, XorBlock, Xor, LaneAt;
    assert lim % 8 == 0;
    v := wide;
    ghost var block := BitsOf(buf[..lim]);
    for k := 0 to lim / 8
      invariant Added(v, wide, block, k)
    {
      WordOf(buf, lim, k);
      AddedNext(v, wide, block, k);
      v := v[LaneAt(k) := Xor(v[LaneAt(k)], Dec64(buf, 8 * k))];
    }
    AddedAll(v, wide, block);
  }

  /** The words before `k` have their part of the block added. */
  ghost predicate Added(v: Lanes, wide: Lanes, block: Bits, k: nat) {
    && |block| % 64 == 0 && |block| <= 1600
    && forall j | 0 <= j < 25 ::
         v[LaneAt(j)] == if j < k && 64 * (j + 1) <= |block| then Xor(wide[LaneAt(j)], block[64 * j..64 * (j + 1)]) else wide[LaneAt(j)]
  }

  lemma AddedNext(v: Lanes, wide: Lanes, block: Bits, k: nat)
    requires k < 25 && 64 * (k + 1) <= |block| && Added(v, wide, block, k)
    ensures Added(v[LaneAt(k) := Xor(v[LaneAt(k)], block[64 * k..64 * (k + 1)])], wide, block, k + 1)
  {
    hide Xor, LaneAt;
    var v' := v[LaneAt(k) := Xor(v[LaneAt(k)], block[64 * k..64 * (k + 1)])];
    LaneAtTwice(k);
    forall j | 0 <= j < 25
      ensures v'[LaneAt(j)] == if j <= k then Xor(wide[LaneAt(j)], block[64 * j..64 * (j + 1)]) else wide[LaneAt(j)]
    {
      LaneAtTwice(j);
      if j == k {
        assert v[LaneAt(k)] == wide[LaneAt(k)];
      } else {
        assert LaneAt(j) != LaneAt(k);
      }
    }
  }

  lemma AddedAll(v: Lanes, wide: Lanes, block: Bits)
    requires Added(v, wide, block, |block| / 64)
    ensures v == XorBlock(wide, block)
  {
    hide Xor, LaneAt, XorBlock;
    forall i | 0 <= i < 25
      ensures v[i] == XorBlock(wide, block)[i]
    {
      LaneAtTwice(i);
      assert v[LaneAt(LaneAt(i))] == XorBlock(wide, block)[LaneAt(LaneAt(i))];
    }
  }

  lemma WordOf(buf: seq<Byte>, lim: nat, k: nat)
    requires lim <= |buf| && 8 * k + 8 <= lim
    ensures BitsOf(buf[..lim])[64 * k..64 * (k + 1)] == Dec64(buf, 8 * k)
  {
    hide BitsOf;
    forall z | 0 <= z < 64
      ensures BitsOf(buf[..lim])[64 * k + z] == Dec64(buf, 8 * k)[z]
    {
      assert (64 * k + z) / 8 == 8 * k + z / 8 && (64 * k + z) % 8 == z % 8;
    }
    assert BitsOf(buf[..lim])[64 * k..64 * (k + 1)] == Dec64(buf, 8 * k);
  }

  /** The byte eb: the upper `n` bits of `ub`, and a one above them. */
  function EndByte(ub: Byte, n: nat): (eb: Byte)
    requires n < 8
    ensures forall i | 0 <= i < 8 :: eb[i] == if i < n then ub[8 - n + i] else i == n
  {
    Shr(ub + [true], 8 - n)[..8]
  }

  const EIGHTY: Byte := seq(8, i => i == 7)

  /** The bytes that the close function absorbs, with `ptr` bytes in the buffer. */
  function Tail(ptr: nat, lim: nat, ub: Byte, n: nat): seq<Byte>
    requires ptr < lim && n < 8
  {
    var eb := EndByte(ub, n);
    if ptr == lim - 1 then
      if n == 7 then [eb] + seq(lim - 1, i => NUL) + [EIGHTY]
      else [Or(eb, EIGHTY)]
    else
      [eb] + seq(lim - ptr - 2, i => NUL) + [EIGHTY]
  }

  // ----- The tail is the padding

  lemma PaddedBytes(eb: Byte, c: nat, i: nat)
    requires i < 8 * (c + 2)
    ensures BitsOf([eb] + seq(c, k => NUL) + [EIGHTY])[i] == if i < 8 then eb[i] else i == 8 * (c + 2) - 1
  {
    var t := [eb] + seq(c, k => NUL) + [EIGHTY];
    assert t[i / 8] == if i < 8 then eb else if i / 8 <= c then NUL else EIGHTY;
  }

  /** The bits of the tail: the last bits of the message, and a one, zeros and a one. */
  lemma TailBits(ptr: nat, lim: nat, ub: Byte, n: nat, z: nat)
    requires ptr < lim && n < 8
    requires 8 * |Tail(ptr, lim, ub, n)| == n + 2 + z
    ensures BitsOf(Tail(ptr, lim, ub, n)) == ub[8 - n..] + [true] + seq(z, i => false) + [true]
  {
    hide BitsOf, EndByte, Or;
    var t := Tail(ptr, lim, ub, n);
    var eb := EndByte(ub, n);
    var expected := ub[8 - n..] + [true] + seq(z, i => false) + [true];
    forall i | 0 <= i < 8 * |t|
      ensures BitsOf(t)[i] == expected[i]
    {
      if ptr == lim - 1 && n != 7 {
        assert BitsOf(t)[i] == Or(eb, EIGHTY)[i];
      } else {
        PaddedBytes(eb, |t| - 2, i);
      }
    }
  }

  lemma TailLength(ptr: nat, lim: nat, ub: Byte, n: nat)
    requires ptr < lim && n < 8
    ensures var l := |Tail(ptr, lim, ub, n)|;
            0 <= 8 * l - n - 2 < 8 * lim && Whole(ptr + l, lim)
  {
    hide EndByte, Or;
    var l := |Tail(ptr, lim, ub, n)|;
    assert ptr + l == lim || ptr + l == 2 * lim;
    assert Whole(0, lim);
    assert Whole(lim, lim);
    assert Whole(lim + lim, lim);
  }

  /** What close absorbs completes the message to the padded message of the sponge. */
  lemma TailPads(stream: seq<Byte>, ptr: nat, lim: nat, ub: Byte, n: nat)
    requires ptr < lim && ptr <= |stream| && Whole(|stream| - ptr, lim) && n < 8
    ensures BitsOf(stream + Tail(ptr, lim, ub, n)) == Pad(BitsOf(stream) + ub[8 - n..], 8 * lim)
    ensures Whole(|stream + Tail(ptr, lim, ub, n)|, lim)
  {
    hide *;
    var t := Tail(ptr, lim, ub, n);
    TailLength(ptr, lim, ub, n);
    var z := 8 * |t| - n - 2;
    TailBits(ptr, lim, ub, n, z);
    BitsOfConcat(stream, t);
    WholeSum(|stream| - ptr, ptr + |t|, lim);
    WholeEight(|stream| + |t|, lim);
    PadFrom(BitsOf(stream), ub[8 - n..], 8 * lim, z);
  }

  lemma PadFrom(m: Bits, e: Bits, r: nat, z: nat)
    requires z < r && Whole(|m| + |e| + 2 + z, r)
    ensures m + (e + [true] + seq(z, i => false) + [true]) == Pad(m + e, r)
  {
    hide Whole;
    FillIs(|m + e| + 2, r, z);
    assert m + (e + [true] + seq(z, i => false) + [true]) == m + e + [true] + seq(z, i => false) + [true];
  }

  // ----- The context

  /** The context of a streaming hash; `stream` is what it was given since it was initialised. */
  class SphKeccak {
    const d: nat
    const rc: seq<Lane>
    var buf: seq<Byte>
    var ptr: nat
    var lim: nat
    var wide: Lanes
    ghost var stream: seq<Byte>

    /** The state is the sponge's after the whole blocks of the stream, with the kept lanes
        complemented; the rest of the stream is in the buffer. */
    ghost predicate Valid()
      reads this
    {
      && |rc| == 24 && |buf| == 144 && IsSize(d, lim)
      && Buffered(buf, ptr, lim, wide, stream, rc)
    }

    constructor (d: nat, rc: seq<Lane>)
      requires |rc| == 24 && (d == 28 || d == 32 || d == 48 || d == 64)
      ensures Valid() && stream == [] && this.d == d && this.rc == rc
    {
      this.d, this.rc := d, rc;
      buf := seq(144, i => NUL);
      ptr := 0;
      lim := 200 - 8 * d / 4;
      wide := InitialLanes();
      stream := [];
      new;
      StartBuffered(buf, lim, rc);
    }

    /** keccak_core: takes in more of the message, in any portion. */
    method Core(data: seq<Byte>)
      requires Valid()
      modifies this`buf, this`ptr, this`wide, this`stream
      ensures Valid() && stream == old(stream) + data && lim == old(lim)
    {
      hide IsRate, Whole, Buffered, XorBlock, CodeRounds, BitsOf;
      BufferedPtr(buf, ptr, lim, wide, stream, rc);
      if |data| < lim - ptr {
        FillBuffered(buf, ptr, lim, wide, stream, rc, data);
        buf := buf[..ptr] + data + buf[ptr + |data|..];
        ptr := ptr + |data|;
        stream := stream + data;
        return;
      }
      var b, p: nat, v, rest := buf, ptr, wide, data;
      ghost var s := stream;
      while |rest| > 0
        invariant |b| == 144 && Buffered(b, p, lim, v, s, rc)
        invariant s + rest == old(stream) + data && lim == old(lim)
      {
        BufferedPtr(b, p, lim, v, s, rc);
        var clen := lim - p;
        if clen > |rest| {
          clen := |rest|;
        }
        var chunk := rest[..clen];
        var b' := b[..p] + chunk + b[p + clen..];
        if p + clen == lim {
          BlockBuffered(b, p, lim, v, s, rc, chunk, b');
          v := InputBuf(v, b', lim);
          v := KeccakF8(v, rc);
          p := 0;
        } else {
          FillBuffered(b, p, lim, v, s, rc, chunk);
          p := p + clen;
        }
        b, s, rest := b', s + chunk, rest[clen..];
      }
      assert s + rest == s;
      buf, ptr, wide, stream := b, p, v, s;
    }

    /** The close functions: with `n` more bits of `ub`, the digest of all that was taken in. */
    method Close(ub: Byte, n: nat) returns (dst: seq<Byte>)
      requires Valid() && n < 8
      modifies this`buf, this`ptr, this`lim, this`wide, this`stream
      ensures |dst| == d
      ensures BitsOf(dst) == SpecDigest(old(BitsOf(stream)) + ub[8 - n..], 8 * (200 - 2 * d), 8 * d, rc)
      ensures Valid() && stream == []
    {
      hide IsRate, Whole, Buffered, BitsOf, Tail, Pad, Absorb, Flat, InitialLanes, FlipLanes;
      BufferedPtr(buf, ptr, lim, wide, stream, rc);
      ghost var s, from := stream, ptr;
      var tmp := Tail(ptr, lim, ub, n);
      Core(tmp);
      Closed(buf, ptr, lim, wide, s, rc, from, ub, n);
      dst := Output(FlipLanes(wide), d);
      buf, ptr, lim, wide, stream := seq(144, i => NUL), 0, 200 - 8 * d / 4, InitialLanes(), [];
      StartBuffered(buf, lim, rc);
    }
  }

  ghost predicate Buffered(buf: seq<Byte>, ptr: nat, lim: nat, wide: Lanes, stream: seq<Byte>, rc: seq<Lane>) {
    && |rc| == 24 && |buf| == 144 && IsRate(8 * lim) && lim <= 144 && ptr < lim
    && ptr <= |stream| && Whole(|stream| - ptr, lim)
    && buf[..ptr] == stream[|stream| - ptr..]
    && wide == Complement(AbsorbBytes(stream[..|stream| - ptr], lim, rc), Kept)
  }

  function AbsorbBytes(m: seq<Byte>, lim: nat, rc: seq<Lane>): Lanes
    requires |rc| == 24 && IsRate(8 * lim) && lim <= 144 && Whole(|m|, lim)
  {
    WholeEight(|m|, lim);
    Absorb(BitsOf(m), 8 * lim, rc)
  }

  lemma BufferedPtr(buf: seq<Byte>, ptr: nat, lim: nat, wide: Lanes, stream: seq<Byte>, rc: seq<Lane>)
    requires Buffered(buf, ptr, lim, wide, stream, rc)
    ensures |rc| == 24 && ptr < lim <= 144 && IsRate(8 * lim) && |buf| == 144
    ensures ptr <= |stream| && Whole(|stream| - ptr, lim)
  {
  }

  lemma FillBuffered(buf: seq<Byte>, ptr: nat, lim: nat, wide: Lanes, stream: seq<Byte>, rc: seq<Lane>, data: seq<Byte>)
    requires Buffered(buf, ptr, lim, wide, stream, rc) && ptr + |data| < lim
    ensures Buffered(buf[..ptr] + data + buf[ptr + |data|..], ptr + |data|, lim, wide, stream + data, rc)
  {
    hide IsRate, Whole, AbsorbBytes, Complement;
    var s := stream + data;
    assert s[..|s| - (ptr + |data|)] == stream[..|stream| - ptr];
    assert s[|s| - (ptr + |data|)..] == stream[|stream| - ptr..] + data;
  }

  lemma BlockBuffered(buf: seq<Byte>, ptr: nat, lim: nat, wide: Lanes, stream: seq<Byte>, rc: seq<Lane>, data: seq<Byte>,
                      buf': seq<Byte>)
    requires Buffered(buf, ptr, lim, wide, stream, rc) && ptr + |data| == lim
    requires |buf'| == 144 && buf'[..lim] == buf[..ptr] + data
    ensures Buffered(buf', 0, lim, CodeRounds(XorBlock(wide, BitsOf(buf'[..lim])), rc, |rc|), stream + data, rc)
  {
    hide IsRate, Whole, AbsorbBytes, Complement, XorBlock, CodeRounds, BitsOf;
    var s, whole := stream + data, stream[..|stream| - ptr];
    assert s == whole + buf'[..lim];
    AbsorbNext(whole, buf'[..lim], rc);
    assert s[..|s| - 0] == s && s[|s| - 0..] == [] && buf'[..0] == [];
  }

  lemma AbsorbNext(m: seq<Byte>, block: seq<Byte>, rc: seq<Lane>)
    requires |rc| == 24 && IsRate(8 * |block|) && |block| <= 144 && Whole(|m|, |block|)
    ensures Whole(|m + block|, |block|)
    ensures CodeRounds(XorBlock(Complement(AbsorbBytes(m, |block|, rc), Kept), BitsOf(block)), rc, |rc|)
            == Complement(AbsorbBytes(m + block, |block|, rc), Kept)
  {
    hide IsRate, Absorb, Complement, XorBlock, CodeRounds, BitsOf;
    WholeEight(|m|, |block|);
    assert |m + block| - |block| == |m|;
    BitsOfConcat(m, block);
    BlockStep(BitsOf(m), BitsOf(block), 8 * |block|, rc);
  }

  /** With the padding taken in, the lanes complemented back are those of the sponge. */
  lemma Closed(buf: seq<Byte>, ptr: nat, lim: nat, wide: Lanes, s: seq<Byte>, rc: seq<Lane>, from: nat, ub: Byte, n: nat)
    requires from < lim && from <= |s| && Whole(|s| - from, lim) && n < 8
    requires Buffered(buf, ptr, lim, wide, s + Tail(from, lim, ub, n), rc)
    ensures |rc| == 24 && IsRate(8 * lim) && lim <= 144
    ensures FlipLanes(wide) == Absorb(Pad(BitsOf(s) + ub[8 - n..], 8 * lim), 8 * lim, rc)
  {
    hide IsRate, Tail, Pad, BitsOf, Buffered, FlipLanes, Absorb;
    var all := s + Tail(from, lim, ub, n);
    TailPads(s, from, lim, ub, n);
    BufferedPtr(buf, ptr, lim, wide, all, rc);
    WholeSum(|all| - ptr, ptr, lim);
    BufferedWhole(buf, lim, wide, all, rc);
    FlipLanesIsComplement(wide);
    ComplementTwice(Absorb(BitsOf(all), 8 * lim, rc));
  }

  lemma BufferedWhole(buf: seq<Byte>, lim: nat, wide: Lanes, stream: seq<Byte>, rc: seq<Lane>)
    requires Buffered(buf, 0, lim, wide, stream, rc)
    ensures Whole(|BitsOf(stream)|, 8 * lim)
    ensures wide == Complement(Absorb(BitsOf(stream), 8 * lim, rc), Kept)
  {
    hide IsRate, Whole, Absorb, Complement, BitsOf;
    assert stream[..|stream| - 0] == stream;
    WholeEight(|stream|, lim);
  }

  /** The state that keccak_init sets: words 1, 2, 8, 12, 17 and 20 all ones. */
  function InitialLanes(): Lanes {
    FlipLanes(Zero())
  }

  /** Complements the words that keccak_init and the close functions list. */
  function FlipLanes(b: Lanes): (r: Lanes) {
    b[LaneAt(1) := Not(b[LaneAt(1)])][LaneAt(2) := Not(b[LaneAt(2)])][LaneAt(8) := Not(b[LaneAt(8)])]
     [LaneAt(12) := Not(b[LaneAt(12)])][LaneAt(17) := Not(b[LaneAt(17)])][LaneAt(20) := Not(b[LaneAt(20)])]
  }

  lemma FlipLanesIsComplement(b: Lanes)
    ensures FlipLanes(b) == Complement(b, Kept)
  {
    hide Complement, Not;
    assert LaneAt(1) == 5 && LaneAt(2) == 10 && LaneAt(8) == 16 && LaneAt(12) == 12 && LaneAt(17) == 13 && LaneAt(20) == 4;
  }

  lemma StartBuffered(buf: seq<Byte>, lim: nat, rc: seq<Lane>)
    requires |buf| == 144 && |rc| == 24 && IsRate(8 * lim) && lim <= 144
    ensures Buffered(buf, 0, lim, InitialLanes(), [], rc)
  {
    hide Complement, FlipLanes, BitsOf, SpecRounds;
    FlipLanesIsComplement(Zero());
    var none: seq<Byte> := [];
    assert none[..|none| - 0] == none && none[|none| - 0..] == none && buf[..0] == none;
    assert |BitsOf(none)| == 0;
  }

  /** A word written little-endian to eight bytes. */
  function Enc64(w: Lane): (r: seq<Byte>)
    ensures |r| == 8 && forall i, z | 0 <= i < 8 && 0 <= z < 8 :: r[i][z] == w[8 * i + z]
  {
    seq(8, i requires 0 <= i < 8 => w[8 * i..8 * i + 8])
  }

  /** The first `d` bytes of the words of the state. */
  method Output(v: Lanes, d: nat) returns (dst: seq<Byte>)
    requires d <= 64
    ensures |dst| == d && BitsOf(dst) == Flat(v)[..8 * d]
  {
    hide LaneAt, BitsOf, Flat, Enc64;
    var tmp: seq<Byte> := [];
    var j := 0;
    while j < d
      invariant j % 8 == 0 && j == |tmp| && j < d + 8
      invariant Written(tmp, v)
    {
      WrittenNext(tmp, v);
      tmp := tmp + Enc64(v[LaneAt(j / 8)]);
      j := j + 8;
    }
    dst := tmp[..d];
    WrittenBits(tmp, v, d);
  }

  ghost predicate Written(tmp: seq<Byte>, v: Lanes) {
    |tmp| <= 200 && forall i, z | 0 <= i < |tmp| && 0 <= z < 8 :: tmp[i][z] == v[LaneAt(i / 8)][8 * (i % 8) + z]
  }

  lemma WrittenNext(tmp: seq<Byte>, v: Lanes)
    requires |tmp| < 200 && |tmp| % 8 == 0 && Written(tmp, v)
    ensures Written(tmp + Enc64(v[LaneAt(|tmp| / 8)]), v)
  {
    hide LaneAt, Enc64;
    var n := |tmp|;
    forall i, z | n <= i < n + 8 && 0 <= z < 8
      ensures (tmp + Enc64(v[LaneAt(n / 8)]))[i][z] == v[LaneAt(i / 8)][8 * (i % 8) + z]
    {
      assert i / 8 == n / 8 && i % 8 == i - n;
    }
  }

  lemma WrittenBits(tmp: seq<Byte>, v: Lanes, d: nat)
    requires d <= |tmp| && Written(tmp, v)
    ensures BitsOf(tmp[..d]) == Flat(v)[..8 * d]
  {
    hide LaneAt, BitsOf;
    forall i | 0 <= i < 8 * d
      ensures BitsOf(tmp[..d])[i] == Flat(v)[i]
    {
      assert i / 8 / 8 == i / 64 && 8 * (i / 8 % 8) + i % 8 == i % 64;
      assert tmp[..d][i / 8] == tmp[i / 8];
    }
  }
}
