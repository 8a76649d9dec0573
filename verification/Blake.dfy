/** The streaming BLAKE hashes (small, of 32-bit words, and big, of 64-bit words) against
    sections 2.1.3 and 2.2.3 of the BLAKE submission to SHA-3: buffering, counter and padding. */
module Blake {
  import opened Bytes
  import opened Words
  import Modular

  type Chain = h: seq<nat> | |h| == 8 witness [0, 0, 0, 0, 0, 0, 0, 0]

  /** A hash of the family: words of `w` bits, a digest of `words` words, an initial value, and
      the compression of a block under the two words of the counter. */
  datatype Variant = Variant(w: nat, words: nat, iv: Chain, compress: (Chain, Bits, nat, nat) -> Chain) {
    predicate Valid() {
      (w == 32 && (words == 7 || words == 8)) || (w == 64 && (words == 6 || words == 8))
    }

    /** The number of values of a word. */
    function Mod(): (m: nat)
      ensures m >= 0x1_0000_0000
    {
      if w == 32 then 0x1_0000_0000 else 0x1_0000_0000_0000_0000
    }
  }

  // ----- The specification, on bits

  /** The bits of a number, the most significant one first, cut to `n` bits. */
  function BeBits(x: nat, n: nat): (r: Bits)
    ensures |r| == n
  {
    if n == 0 then [] else BeBits(x / 2, n - 1) + [x % 2 == 1]
  }

  function Nulls(k: nat): (r: Bits)
    ensures |r| == k && forall i | 0 <= i < k :: !r[i]
  {
    seq(k, i => false)
  }

  /** The message, a one, as few zeros as it takes, a one (for the full-size digests), and the
      length of the message. */
  function Pad(v: Variant, m: Bits): (p: Bits)
    requires v.Valid()
    ensures Whole(|p|, 16 * v.w)
  {
    m + [true] + Nulls(Fill(|m| + 2 + 2 * v.w, 16 * v.w)) + [v.words == 8] + BeBits(|m|, 2 * v.w)
  }

  /** The counter for the block that ends at bit `end`: the number of message bits so far, or
      zero when none of them is in the block. */
  function Counter(v: Variant, end: nat, length: nat): nat
    requires v.Valid() && end >= 16 * v.w
  {
    if end - 16 * v.w >= length then 0 else if end <= length then end else length
  }

  /** The chaining value after the blocks of `p`, for a message of `length` bits. */
  function Fold(v: Variant, p: Bits, length: nat): Chain
    requires v.Valid() && Whole(|p|, 16 * v.w)
    decreases |p|
  {
    if |p| == 0 then v.iv
    else
      var c := Counter(v, |p|, length);
      (v.compress)(Fold(v, p[..|p| - 16 * v.w], length), p[|p| - 16 * v.w..], c % v.Mod(), c / v.Mod() % v.Mod())
  }

  function Digest(h: Chain, w: nat, words: nat): Bits
    requires words <= 8
  {
    if words == 0 then [] else Digest(h, w, words - 1) + BeBits(h[words - 1], w)
  }

  function SpecDigest(v: Variant, m: Bits): Bits
    requires v.Valid()
  {
    Digest(Fold(v, Pad(v, m), |m|), v.w, v.words)
  }

  /** While all blocks are full of message bits, the length of the message does not matter. */
  lemma {:induction false} FoldFull(v: Variant, p: Bits, a: nat, b: nat)
    requires v.Valid() && Whole(|p|, 16 * v.w) && |p| <= a && |p| <= b
    ensures Fold(v, p, a) == Fold(v, p, b)
    decreases |p|
  {
    if |p| > 0 {
      FoldFull(v, p[..|p| - 16 * v.w], a, b);
    }
  }

  lemma FoldNext(v: Variant, p: Bits, block: Bits, length: nat)
    requires v.Valid() && Whole(|p|, 16 * v.w) && |block| == 16 * v.w
    ensures Whole(|p + block|, 16 * v.w)
    ensures var c := Counter(v, |p + block|, length);
            Fold(v, p + block, length) == (v.compress)(Fold(v, p, length), block, c % v.Mod(), c / v.Mod() % v.Mod())
  {
    hide Counter, Variant.Mod;
    var q := p + block;
    assert |q| - 16 * v.w == |p|;
    assert q[..|q| - 16 * v.w] == p && q[|q| - 16 * v.w..] == block;
  }

  // ----- The code, one byte at a time

  datatype State = State(buf: seq<Byte>, ptr: nat, h: Chain, t0: nat, t1: nat)

  predicate StateOk(v: Variant, s: State) {
    v.Valid() && |s.buf| == 2 * v.w && s.ptr < 2 * v.w
  }

  function Start(v: Variant): State {
    State(seq(2 * v.w, i => NUL), 0, v.iv, 0, 0)
  }

  /** The counter words after one more block. */
  function Bump(v: Variant, t0: nat, t1: nat): (nat, nat) {
    var s := (t0 + 16 * v.w) % v.Mod();
    (s, if s < 16 * v.w then (t1 + 1) % v.Mod() else t1)
  }

  /** The state with the buffer full: one block is compressed. */
  function Block(v: Variant, s: State, buf: seq<Byte>): State {
    var t := Bump(v, s.t0, s.t1);
    State(buf, 0, (v.compress)(s.h, BitsOf(buf), t.0, t.1), t.0, t.1)
  }

  function Feed(v: Variant, s: State, b: Byte): (r: State)
    requires StateOk(v, s)
    ensures StateOk(v, r)
  {
    var buf := s.buf[s.ptr := b];
    if s.ptr + 1 == 2 * v.w then Block(v, s, buf) else s.(buf := buf, ptr := s.ptr + 1)
  }

  function FeedAll(v: Variant, s: State, data: seq<Byte>): (r: State)
    requires StateOk(v, s)
    ensures StateOk(v, r)
  {
    if |data| == 0 then s else Feed(v, FeedAll(v, s, data[..|data| - 1]), data[|data| - 1])
  }

  /** However a message is split, the state is the same. */
  lemma {:induction false} FeedSplit(v: Variant, s: State, a: seq<Byte>, b: seq<Byte>)
    requires StateOk(v, s)
    ensures FeedAll(v, s, a + b) == FeedAll(v, FeedAll(v, s, a), b)
  {
    hide Feed;
    if |b| == 0 {
      assert a + b == a;
    } else {
      var n := |b| - 1;
      FeedSplit(v, s, a, b[..n]);
      assert (a + b)[..|a + b| - 1] == a + b[..n];
    }
  }

  function Stored(buf: seq<Byte>, ptr: nat, chunk: seq<Byte>): seq<Byte>
    requires ptr + |chunk| <= |buf|
  {
    buf[..ptr] + chunk + buf[ptr + |chunk|..]
  }

  /** A chunk that fits in the buffer with room to spare is stored. */
  lemma {:induction false} FeedPart(v: Variant, s: State, chunk: seq<Byte>)
    requires StateOk(v, s) && s.ptr + |chunk| < 2 * v.w
    ensures FeedAll(v, s, chunk) == s.(buf := Stored(s.buf, s.ptr, chunk), ptr := s.ptr + |chunk|)
  {
    hide Block;
    if |chunk| == 0 {
      assert Stored(s.buf, s.ptr, chunk) == s.buf;
    } else {
      var n := |chunk| - 1;
      FeedPart(v, s, chunk[..n]);
      assert Stored(s.buf, s.ptr, chunk[..n])[s.ptr + n := chunk[n]] == Stored(s.buf, s.ptr, chunk);
    }
  }

  /** A chunk that fills the buffer makes a block of it. */
  lemma FeedBlock(v: Variant, s: State, chunk: seq<Byte>)
    requires StateOk(v, s) && s.ptr + |chunk| == 2 * v.w
    ensures FeedAll(v, s, chunk) == Block(v, s, Stored(s.buf, s.ptr, chunk))
  {
    hide Block;
    var n := |chunk| - 1;
    FeedPart(v, s, chunk[..n]);
    assert Stored(s.buf, s.ptr, chunk[..n])[s.ptr + n := chunk[n]] == Stored(s.buf, s.ptr, chunk);
    assert Block(v, FeedAll(v, s, chunk[..n]), Stored(s.buf, s.ptr, chunk)) == Block(v, s, Stored(s.buf, s.ptr, chunk)) by {
      BlockOf(v, s, FeedAll(v, s, chunk[..n]), Stored(s.buf, s.ptr, chunk));
    }
  }

  lemma BlockOf(v: Variant, s: State, s': State, buf: seq<Byte>)
    requires s.h == s'.h && s.t0 == s'.t0 && s.t1 == s'.t1
    ensures Block(v, s, buf) == Block(v, s', buf)
  {
  }

  // ----- What the state holds

  /** The counter words for `bits` bits. */
  predicate Counts(v: Variant, t0: nat, t1: nat, bits: nat) {
    t0 == bits % v.Mod() && t1 == bits / v.Mod() % v.Mod()
  }

  /** The state after `stream`: the whole blocks are folded and counted, the rest is buffered. */
  ghost predicate Holds(v: Variant, s: State, stream: seq<Byte>) {
    && StateOk(v, s)
    && s.ptr <= |stream|
    && var whole := stream[..|stream| - s.ptr];
    && Whole(|BitsOf(whole)|, 16 * v.w)
    && s.buf[..s.ptr] == stream[|stream| - s.ptr..]
    && s.h == Fold(v, BitsOf(whole), |BitsOf(whole)|)
    && Counts(v, s.t0, s.t1, |BitsOf(whole)|)
  }

  lemma StartHolds(v: Variant)
    requires v.Valid()
    ensures Holds(v, Start(v), [])
  {
    var none: seq<Byte> := [];
    assert |BitsOf(none)| == 0 && none[..|none| - 0] == none;
  }

  /** A word that counts whole blocks of bits overflows just to zero. */
  lemma WordOfBlocks(v: Variant, bits: nat)
    requires v.Valid() && Whole(bits, 16 * v.w)
    ensures bits % v.Mod() <= v.Mod() - 16 * v.w
    ensures bits % v.Mod() == 0 || bits % v.Mod() >= 16 * v.w
  {
    hide Whole;
    WholeIsMod(bits, 16 * v.w);
    if v.w == 32 {
      Modular.MultipleModMultiple(bits, 512, 0x80_0000);
    } else {
      Modular.MultipleModMultiple(bits, 1024, 0x40_0000_0000_0000);
    }
  }

  lemma Adding(v: Variant, bits: nat, more: nat)
    requires v.Valid() && bits % v.Mod() + more < v.Mod()
    ensures (bits + more) % v.Mod() == bits % v.Mod() + more && (bits + more) / v.Mod() == bits / v.Mod()
  {
    var m := v.Mod();
    assert bits + more == bits / m * m + (bits % m + more);
    Modular.DivModUnique(bits + more, m, bits / m, bits % m + more);
  }

  lemma Wrapping(v: Variant, bits: nat, more: nat)
    requires v.Valid() && bits % v.Mod() + more == v.Mod()
    ensures (bits + more) % v.Mod() == 0 && (bits + more) / v.Mod() == bits / v.Mod() + 1
  {
    var m := v.Mod();
    assert bits + more == bits / m * m + m;
    assert bits / m * m + m == (bits / m + 1) * m;
    Modular.DivModUnique(bits + more, m, bits / m + 1, 0);
  }

  lemma NextOfMod(q: nat, m: nat)
    requires m > 1
    ensures (q % m + 1) % m == (q + 1) % m
  {
    Modular.AddMultiple(q % m + 1, m, q / m);
    assert q == q / m * m + q % m;
  }

  lemma BumpCounts(v: Variant, t0: nat, t1: nat, bits: nat)
    requires v.Valid() && Whole(bits, 16 * v.w) && Counts(v, t0, t1, bits)
    ensures var t := Bump(v, t0, t1); Counts(v, t.0, t.1, bits + 16 * v.w)
  {
    hide Whole, Variant.Mod;
    ModLarge(v);
    WordOfBlocks(v, bits);
    if t0 + 16 * v.w == v.Mod() {
      Wrapping(v, bits, 16 * v.w);
      Modular.MultipleMod(1, v.Mod());
      NextOfMod(bits / v.Mod(), v.Mod());
    } else {
      Adding(v, bits, 16 * v.w);
      Modular.SmallMod(t0 + 16 * v.w, v.Mod());
    }
  }

  lemma ModLarge(v: Variant)
    requires v.Valid()
    ensures v.Mod() > 16 * v.w
  {
  }

  lemma {:induction false} FeedAllHolds(v: Variant, s: State, stream: seq<Byte>, data: seq<Byte>)
    requires Holds(v, s, stream)
    ensures StateOk(v, s) && Holds(v, FeedAll(v, s, data), stream + data)
  {
    hide Holds, Feed;
    HoldsOk(v, s, stream);
    if |data| == 0 {
      assert stream + data == stream;
    } else {
      var n := |data| - 1;
      FeedAllHolds(v, s, stream, data[..n]);
      FeedHolds(v, FeedAll(v, s, data[..n]), stream + data[..n], data[n]);
      assert stream + data[..n] + [data[n]] == stream + data;
    }
  }

  lemma HoldsOk(v: Variant, s: State, stream: seq<Byte>)
    requires Holds(v, s, stream)
    ensures StateOk(v, s)
  {
  }

  lemma FeedHolds(v: Variant, s: State, stream: seq<Byte>, b: Byte)
    requires Holds(v, s, stream)
    ensures StateOk(v, s) && Holds(v, Feed(v, s, b), stream + [b])
  {
    hide Fold, Counts, Whole, BitsOf, Bump;
    var next, buf := stream + [b], s.buf[s.ptr := b];
    var whole := stream[..|stream| - s.ptr];
    if s.ptr + 1 == 2 * v.w {
      assert next == whole + buf;
      BlockHolds(v, s, whole, buf);
      assert next[..|next| - 0] == next && next[|next| - 0..] == [] && buf[..0] == [];
    } else {
      assert next[..|next| - (s.ptr + 1)] == whole;
      assert next[|next| - (s.ptr + 1)..] == stream[|stream| - s.ptr..] + [b] == buf[..s.ptr + 1];
    }
  }

  lemma BlockHolds(v: Variant, s: State, whole: seq<Byte>, buf: seq<Byte>)
    requires v.Valid() && |buf| == 2 * v.w && Whole(|BitsOf(whole)|, 16 * v.w)
    requires s.h == Fold(v, BitsOf(whole), |BitsOf(whole)|) && Counts(v, s.t0, s.t1, |BitsOf(whole)|)
    ensures Whole(|BitsOf(whole + buf)|, 16 * v.w)
    ensures Block(v, s, buf).h == Fold(v, BitsOf(whole + buf), |BitsOf(whole + buf)|)
    ensures Counts(v, Block(v, s, buf).t0, Block(v, s, buf).t1, |BitsOf(whole + buf)|)
  {
    hide Fold, Whole, BitsOf, Bump, Variant.Mod;
    var p := BitsOf(whole);
    BitsOfConcat(whole, buf);
    BumpCounts(v, s.t0, s.t1, |p|);
    FoldNext(v, p, BitsOf(buf), |p| + 16 * v.w);
    FoldFull(v, p, |p|, |p| + 16 * v.w);
  }

  // ----- The length of the message in words

  lemma Pow2Bytes()
    ensures Modular.Pow2(8) == 0x100
  {
    assert Modular.Pow2(2) == 4;
    Modular.Pow2Sum(2, 2);
    Modular.Pow2Sum(4, 4);
  }

  lemma ModIsPow2(v: Variant)
    requires v.Valid()
    ensures v.Mod() == Modular.Pow2(v.w)
  {
    hide Modular.Pow2;
    Pow2Bytes();
    Modular.Pow2Sum(8, 8);
    Modular.Pow2Sum(16, 16);
    Modular.Pow2Sum(32, 32);
  }

  /** `x` without its `m` lowest bits. */
  function High(x: nat, m: nat): nat {
    if m == 0 then x else High(x / 2, m - 1)
  }

  lemma {:induction false} HighIsDiv(x: nat, m: nat)
    ensures High(x, m) == x / Modular.Pow2(m)
  {
    hide Modular.Pow2;
    PowStep(m);
    if m > 0 {
      HighIsDiv(x / 2, m - 1);
      Modular.HalfDiv(x, Modular.Pow2(m - 1));
    }
  }

  lemma PowStep(m: nat)
    ensures Modular.Pow2(m) == if m == 0 then 1 else 2 * Modular.Pow2(m - 1)
  {
  }

  lemma {:induction false} BeBitsSplit(x: nat, n: nat, m: nat)
    ensures BeBits(x, n + m) == BeBits(High(x, m), n) + BeBits(x, m)
  {
    hide BeBits;
    if m > 0 {
      BeBitsSplit(x / 2, n, m - 1);
      BeBitsStep(x, n + m);
      BeBitsStep(x, m);
    }
  }

  lemma BeBitsStep(x: nat, n: nat)
    requires n > 0
    ensures BeBits(x, n) == BeBits(x / 2, n - 1) + [x % 2 == 1]
  {
  }

  lemma {:induction false} BeBitsCut(x: nat, k: nat, n: nat)
    ensures BeBits(x + k * Modular.Pow2(n), n) == BeBits(x, n)
  {
    if n > 0 {
      var p := k * Modular.Pow2(n - 1);
      assert k * Modular.Pow2(n) == 2 * p;
      assert (x + 2 * p) / 2 == x / 2 + p && (x + 2 * p) % 2 == x % 2;
      BeBitsCut(x / 2, k, n - 1);
    }
  }

  /** The two words of a length, written one after the other, are the length. */
  lemma LengthWords(v: Variant, length: nat)
    requires v.Valid()
    ensures BeBits(length, 2 * v.w) == BeBits(length / v.Mod() % v.Mod(), v.w) + BeBits(length % v.Mod(), v.w)
  {
    hide BeBits, Modular.Pow2, High, Variant.Mod;
    ModIsPow2(v);
    var m, q := v.Mod(), length / v.Mod();
    BeBitsSplit(length, v.w, v.w);
    HighIsDiv(length, v.w);
    BeBitsCut(length % m, q, v.w);
    assert length == length % m + q * m;
    BeBitsCut(q % m, q / m, v.w);
    assert q == q % m + q / m * m;
  }

  /** A word written big-endian. */
  function EncBe(x: nat, w: nat): (r: seq<Byte>)
    ensures |r| == w / 8
  {
    assert forall i | 0 <= i < w / 8 :: |BeBits(x, w)[8 * i..8 * i + 8]| == 8;
    seq(w / 8, i requires 0 <= i < w / 8 => BeBits(x, w)[8 * i..8 * i + 8])
  }

  lemma EncBeBits(x: nat, w: nat)
    requires w % 8 == 0
    ensures BitsOf(EncBe(x, w)) == BeBits(x, w)
  {
    hide BeBits, BitsOf;
    forall i | 0 <= i < w
      ensures BitsOf(EncBe(x, w))[i] == BeBits(x, w)[i]
    {
      assert 8 * (i / 8) + i % 8 == i;
    }
  }

  // ----- The end of a message

  /** The byte z = 0x80 >> n, and the low byte of -z. */
  function Z(n: nat): Byte { seq(8, i => i == n) }
  function MinusZ(n: nat): Byte { seq(8, i => i <= n) }

  /** ((ub & -z) | z) & 0xFF. */
  function EndByte(ub: Byte, n: nat): (e: Byte)
    requires n < 8
    ensures forall i | 0 <= i < 8 :: e[i] == if i < n then ub[i] else i == n
  {
    Or(And(ub, MinusZ(n)), Z(n))
  }

  function Zeros(e: Byte, c: nat): (r: seq<Byte>)
    ensures |r| == c + 1
  {
    [e] + seq(c, i => NUL)
  }

  /** A byte and `c` zero bytes, the last bit of them set on demand. */
  function Body(e: Byte, c: nat, mark: bool): (r: seq<Byte>)
    ensures |r| == c + 1
  {
    if mark then Zeros(e, c)[c := Zeros(e, c)[c][7 := true]] else Zeros(e, c)
  }

  lemma BodyBits(e: Byte, c: nat, mark: bool, i: nat)
    requires i < 8 * (c + 1)
    ensures BitsOf(Body(e, c, mark))[i] == ((i < 8 && e[i]) || (i == 8 * (c + 1) - 1 && mark))
  {
  }

  /** Where the length is in the last block: byte 56 or 112. */
  function LengthAt(w: nat): nat {
    2 * w - w / 4
  }

  /** The counter words set before the block that holds the last `bitLen` bits, so that the
      step of one block brings them to the right value. */
  function Adjusted(v: Variant, t0: nat, t1: nat, bitLen: nat): (t: (nat, nat))
    requires v.Valid() && bitLen < 16 * v.w
  {
    if bitLen == 0 then (v.Mod() - 16 * v.w, v.Mod() - 1)
    else if t0 == 0 then (v.Mod() - 16 * v.w + bitLen, (t1 + v.Mod() - 1) % v.Mod())
    else ((t0 + v.Mod() - (16 * v.w - bitLen)) % v.Mod(), t1)
  }

  /** The compression of the last bits sees the length of the message, or zero if there are none. */
  lemma AdjustedCounts(v: Variant, t0: nat, t1: nat, bits: nat, bitLen: nat)
    requires v.Valid() && Whole(bits, 16 * v.w) && Counts(v, t0, t1, bits) && bitLen < 16 * v.w
    ensures var t := Adjusted(v, t0, t1, bitLen);
            var u := Bump(v, t.0, t.1);
            Counts(v, u.0, u.1, if bitLen == 0 then 0 else bits + bitLen)
  {
    hide Whole, Variant.Mod;
    ModLarge(v);
    var m := v.Mod();
    WordOfBlocks(v, bits);
    Modular.MultipleMod(1, m);
    Modular.SmallMod(0, m);
    if bitLen == 0 {
    } else if t0 == 0 {
      Adding(v, bits, bitLen);
      Modular.OneMore(bitLen, m);
      Modular.SmallMod(bitLen, m);
      PrevNext(t1, m);
    } else {
      Adding(v, bits, bitLen);
      var u := t0 - (16 * v.w - bitLen);
      Modular.OneMore(u, m);
      Modular.SmallMod(u, m);
      Modular.SmallMod(t0 + bitLen, m);
    }
  }

  lemma PrevNext(t: nat, m: nat)
    requires t < m && m > 1
    ensures ((t + m - 1) % m + 1) % m == t
  {
    if t == 0 {
      Modular.SmallMod(m - 1, m);
      Modular.MultipleMod(1, m);
    } else {
      Modular.OneMore(t - 1, m);
      Modular.SmallMod(t - 1, m);
      Modular.SmallMod(t, m);
    }
  }

  /** One block, from the last bytes `rest` of the message on. */
  function ShortTail(v: Variant, ptr: nat, ub: Byte, n: nat, th: nat, tl: nat): (r: seq<Byte>)
    requires v.Valid() && n < 8 && 8 * ptr + n <= 14 * v.w - 2
    ensures |r| == 2 * v.w - ptr
  {
    Body(EndByte(ub, n), LengthAt(v.w) - 1 - ptr, v.words == 8) + EncBe(th, v.w) + EncBe(tl, v.w)
  }

  function LongTail(v: Variant, ptr: nat, ub: Byte, n: nat): (r: seq<Byte>)
    requires v.Valid() && n < 8 && ptr < 2 * v.w
    ensures |r| == 2 * v.w - ptr
  {
    Body(EndByte(ub, n), 2 * v.w - 1 - ptr, false)
  }

  function LastBlock(v: Variant, th: nat, tl: nat): (r: seq<Byte>)
    requires v.Valid()
    ensures |r| == 2 * v.w
  {
    Body(NUL, LengthAt(v.w) - 1, v.words == 8) + EncBe(th, v.w) + EncBe(tl, v.w)
  }

  lemma BodyAndLength(v: Variant, e: Byte, c: nat, length: nat)
    requires v.Valid()
    ensures var th, tl := length / v.Mod() % v.Mod(), length % v.Mod();
            BitsOf(Body(e, c, v.words == 8) + EncBe(th, v.w) + EncBe(tl, v.w))
            == BitsOf(Body(e, c, v.words == 8)) + BeBits(length, 2 * v.w)
  {
    hide BitsOf, BeBits, EncBe, Body, Variant.Mod;
    var th, tl := length / v.Mod() % v.Mod(), length % v.Mod();
    var body := Body(e, c, v.words == 8);
    BitsOfConcat(body + EncBe(th, v.w), EncBe(tl, v.w));
    BitsOfConcat(body, EncBe(th, v.w));
    EncBeBits(th, v.w);
    EncBeBits(tl, v.w);
    LengthWords(v, length);
    assert BitsOf(body) + BeBits(th, v.w) + BeBits(tl, v.w) == BitsOf(body) + (BeBits(th, v.w) + BeBits(tl, v.w));
  }

  lemma EndBits(ub: Byte, n: nat, c: nat, mark: bool)
    requires n < 8 && (mark ==> n + 2 <= 8 * (c + 1))
    ensures !mark ==> BitsOf(Body(EndByte(ub, n), c, mark)) == ub[..n] + [true] + Nulls(8 * c + 7 - n)
    ensures mark ==> BitsOf(Body(EndByte(ub, n), c, mark)) == ub[..n] + [true] + Nulls(8 * c + 6 - n) + [true]
  {
    hide BitsOf, Body, EndByte;
    forall i | 0 <= i < 8 * (c + 1)
      ensures BitsOf(Body(EndByte(ub, n), c, mark))[i]
              == ((i < 8 && EndByte(ub, n)[i]) || (i == 8 * (c + 1) - 1 && mark))
    {
      BodyBits(EndByte(ub, n), c, mark, i);
    }
  }

  lemma ZeroBits(c: nat, mark: bool)
    ensures BitsOf(Body(NUL, c, mark)) == Nulls(8 * c + 7) + [mark]
  {
    hide BitsOf, Body;
    forall i | 0 <= i < 8 * (c + 1)
      ensures BitsOf(Body(NUL, c, mark))[i] == (i == 8 * (c + 1) - 1 && mark)
    {
      BodyBits(NUL, c, mark, i);
    }
  }

  /** The bits that end a padded message: its own last ones, a one, zeros, the mark and the length. */
  function Ending(e: Bits, k: nat, mark: bool, length: Bits): Bits {
    e + [true] + Nulls(k) + [mark] + length
  }

  lemma ShortTailBits(v: Variant, ptr: nat, ub: Byte, n: nat, length: nat)
    requires v.Valid() && n < 8 && 8 * ptr + n <= 14 * v.w - 2
    ensures BitsOf(ShortTail(v, ptr, ub, n, length / v.Mod() % v.Mod(), length % v.Mod()))
            == Ending(ub[..n], 14 * v.w - 2 - 8 * ptr - n, v.words == 8, BeBits(length, 2 * v.w))
  {
    hide BitsOf, BeBits, EncBe, Body, EndByte, Variant.Mod, Nulls;
    var c := LengthAt(v.w) - 1 - ptr;
    BodyAndLength(v, EndByte(ub, n), c, length);
    EndBits(ub, n, c, v.words == 8);
    var k := 14 * v.w - 2 - 8 * ptr - n;
    if v.words != 8 {
      NullsNext(ub[..n] + [true], k);
      assert 8 * c + 7 - n == k + 1;
    } else {
      assert 8 * c + 6 - n == k;
    }
  }

  lemma NullsNext(e: Bits, k: nat)
    ensures e + Nulls(k + 1) == e + Nulls(k) + [false]
  {
    hide Nulls;
  }

  lemma LongTailBits(v: Variant, ptr: nat, ub: Byte, n: nat, length: nat)
    requires v.Valid() && n < 8 && ptr < 2 * v.w
    ensures BitsOf(LongTail(v, ptr, ub, n) + LastBlock(v, length / v.Mod() % v.Mod(), length % v.Mod()))
            == Ending(ub[..n], 30 * v.w - 2 - 8 * ptr - n, v.words == 8, BeBits(length, 2 * v.w))
  {
    hide BitsOf, BeBits, EncBe, Body, EndByte, Variant.Mod, Nulls;
    var tail, last := LongTail(v, ptr, ub, n), LastBlock(v, length / v.Mod() % v.Mod(), length % v.Mod());
    BitsOfConcat(tail, last);
    EndBits(ub, n, 2 * v.w - 1 - ptr, false);
    BodyAndLength(v, NUL, LengthAt(v.w) - 1, length);
    ZeroBits(LengthAt(v.w) - 1, v.words == 8);
    var k1, k2 := 16 * v.w - 1 - 8 * ptr - n, 14 * v.w - 1;
    assert 8 * (LengthAt(v.w) - 1) + 7 == k2 && 8 * (2 * v.w - 1 - ptr) + 7 - n == k1;
    Regroup(ub[..n], k1, k2, v.words == 8, BeBits(length, 2 * v.w));
  }

  lemma Regroup(e: Bits, k1: nat, k2: nat, mark: bool, length: Bits)
    ensures e + [true] + Nulls(k1) + (Nulls(k2) + [mark] + length) == Ending(e, k1 + k2, mark, length)
  {
    hide Nulls;
    assert Nulls(k1 + k2) == Nulls(k1) + Nulls(k2);
  }

  /** Bytes with such bits complete a message to the padded message. */
  lemma TailPads(v: Variant, stream: seq<Byte>, tail: seq<Byte>, ub: Byte, n: nat, k: nat)
    requires v.Valid() && n < 8 && k < 16 * v.w
    requires Whole(8 * |stream| + n + 2 + 2 * v.w + k, 16 * v.w)
    requires BitsOf(tail) == Ending(ub[..n], k, v.words == 8, BeBits(8 * |stream| + n, 2 * v.w))
    ensures BitsOf(stream + tail) == Pad(v, BitsOf(stream) + ub[..n])
  {
    hide BitsOf, BeBits, Nulls, Whole;
    BitsOfConcat(stream, tail);
    FillIs(8 * |stream| + n + 2 + 2 * v.w, 16 * v.w, k);
    EndingAfter(BitsOf(stream), ub[..n], k, v.words == 8, BeBits(8 * |stream| + n, 2 * v.w));
  }

  lemma EndingAfter(m: Bits, e: Bits, k: nat, mark: bool, length: Bits)
    ensures m + Ending(e, k, mark, length) == m + e + [true] + Nulls(k) + [mark] + length
  {
    hide Nulls;
  }

  lemma WholeNext(n: nat, r: nat)
    requires Whole(n, r)
    ensures Whole(n + r, r) && Whole(n + r + r, r)
  {
  }

  /** The short tail completes the message to the padded message. */
  lemma ShortPads(v: Variant, stream: seq<Byte>, ptr: nat, ub: Byte, n: nat)
    requires v.Valid() && n < 8 && 8 * ptr + n <= 14 * v.w - 2
    requires ptr <= |stream| && Whole(8 * (|stream| - ptr), 16 * v.w)
    ensures var length := 8 * |stream| + n;
            BitsOf(stream + ShortTail(v, ptr, ub, n, length / v.Mod() % v.Mod(), length % v.Mod()))
            == Pad(v, BitsOf(stream) + ub[..n])
  {
    hide BitsOf, BeBits, ShortTail, Variant.Mod, Whole, Ending, Pad;
    var length := 8 * |stream| + n;
    ShortTailBits(v, ptr, ub, n, length);
    WholeNext(8 * (|stream| - ptr), 16 * v.w);
    TailPads(v, stream, ShortTail(v, ptr, ub, n, length / v.Mod() % v.Mod(), length % v.Mod()), ub, n, 14 * v.w - 2 - 8 * ptr - n);
  }

  /** And so do the long tail and the block after it. */
  lemma LongPads(v: Variant, stream: seq<Byte>, ptr: nat, ub: Byte, n: nat)
    requires v.Valid() && n < 8 && ptr < 2 * v.w && 8 * ptr + n > 14 * v.w - 2
    requires ptr <= |stream| && Whole(8 * (|stream| - ptr), 16 * v.w)
    ensures var length := 8 * |stream| + n;
            BitsOf(stream + (LongTail(v, ptr, ub, n) + LastBlock(v, length / v.Mod() % v.Mod(), length % v.Mod())))
            == Pad(v, BitsOf(stream) + ub[..n])
  {
    hide BitsOf, BeBits, LongTail, LastBlock, Variant.Mod, Whole, Ending, Pad;
    var length := 8 * |stream| + n;
    LongTailBits(v, ptr, ub, n, length);
    WholeNext(8 * (|stream| - ptr), 16 * v.w);
    TailPads(v, stream, LongTail(v, ptr, ub, n) + LastBlock(v, length / v.Mod() % v.Mod(), length % v.Mod()), ub, n,
             30 * v.w - 2 - 8 * ptr - n);
  }

  // ----- Closing

  /** The block with the last bits of the message, under the adjusted counter. */
  lemma EndBlock(v: Variant, s: State, stream: seq<Byte>, bitLen: nat, tail: seq<Byte>)
    requires Holds(v, s, stream) && StateOk(v, s) && bitLen < 16 * v.w && s.ptr + |tail| == 2 * v.w
    requires bitLen == 0 ==> s.ptr == 0
    ensures Whole(8 * (|stream| - s.ptr), 16 * v.w) && Whole(|BitsOf(stream + tail)|, 16 * v.w)
    ensures var t := Adjusted(v, s.t0, s.t1, bitLen);
            var r := FeedAll(v, s.(t0 := t.0, t1 := t.1), tail);
            r.ptr == 0 && r.h == Fold(v, BitsOf(stream + tail), 8 * (|stream| - s.ptr) + bitLen)
  {
    hide Whole, BitsOf, Adjusted, Fold, Bump, FeedAll, Variant.Mod;
    var t := Adjusted(v, s.t0, s.t1, bitLen);
    var s' := s.(t0 := t.0, t1 := t.1);
    FeedBlock(v, s', tail);
    var whole := stream[..|stream| - s.ptr];
    var bits := |BitsOf(whole)|;
    var block := Stored(s.buf, s.ptr, tail);
    assert stream + tail == whole + block;
    BitsOfConcat(whole, block);
    AdjustedCounts(v, s.t0, s.t1, bits, bitLen);
    FoldNext(v, BitsOf(whole), BitsOf(block), bits + bitLen);
    FoldFull(v, BitsOf(whole), bits, bits + bitLen);
    EndCounter(v, bits, bitLen);
  }

  lemma EndCounter(v: Variant, bits: nat, bitLen: nat)
    requires v.Valid() && bitLen < 16 * v.w
    ensures var c := Counter(v, bits + 16 * v.w, bits + bitLen);
            c == if bitLen == 0 then 0 else bits + bitLen
  {
  }

  lemma EndLength(v: Variant, s: State, stream: seq<Byte>, bitLen: nat)
    requires Holds(v, s, stream) && StateOk(v, s) && bitLen < 16 * v.w
    ensures var length := 8 * (|stream| - s.ptr) + bitLen;
            s.t0 + bitLen == length % v.Mod() && s.t1 == length / v.Mod() % v.Mod()
  {
    hide Whole, BitsOf, Fold, Variant.Mod;
    var bits := 8 * (|stream| - s.ptr);
    WordOfBlocks(v, bits);
    Adding(v, bits, bitLen);
  }

  lemma ShortClose(v: Variant, s: State, stream: seq<Byte>, ub: Byte, n: nat)
    requires Holds(v, s, stream) && StateOk(v, s) && n < 8 && 8 * s.ptr + n <= 14 * v.w - 2
    ensures var bitLen := 8 * s.ptr + n;
            var t, m := Adjusted(v, s.t0, s.t1, bitLen), BitsOf(stream) + ub[..n];
            FeedAll(v, s.(t0 := t.0, t1 := t.1), ShortTail(v, s.ptr, ub, n, s.t1, s.t0 + bitLen)).h
            == Fold(v, Pad(v, m), |m|)
  {
    hide Holds, Whole, BitsOf, Adjusted, Fold, Bump, FeedAll, Counts, Variant.Mod, Pad, ShortTail, LongTail, LastBlock;
    var bitLen := 8 * s.ptr + n;
    HoldsPtr(v, s, stream);
    EndLength(v, s, stream, bitLen);
    EndBlock(v, s, stream, bitLen, ShortTail(v, s.ptr, ub, n, s.t1, s.t0 + bitLen));
    ShortPads(v, stream, s.ptr, ub, n);
  }

  lemma HoldsPtr(v: Variant, s: State, stream: seq<Byte>)
    requires Holds(v, s, stream)
    ensures s.ptr <= |stream|
  {
  }

  lemma LongClose(v: Variant, s: State, stream: seq<Byte>, ub: Byte, n: nat)
    requires Holds(v, s, stream) && StateOk(v, s) && n < 8 && 8 * s.ptr + n > 14 * v.w - 2
    ensures var bitLen := 8 * s.ptr + n;
            var t, m := Adjusted(v, s.t0, s.t1, bitLen), BitsOf(stream) + ub[..n];
            var r := FeedAll(v, s.(t0 := t.0, t1 := t.1), LongTail(v, s.ptr, ub, n));
            FeedAll(v, r.(t0 := v.Mod() - 16 * v.w, t1 := v.Mod() - 1), LastBlock(v, s.t1, s.t0 + bitLen)).h
            == Fold(v, Pad(v, m), |m|)
  {
    hide Holds, Whole, BitsOf, Adjusted, Fold, Bump, FeedAll, Counts, Variant.Mod, Pad, ShortTail, LongTail, LastBlock;
    var bitLen := 8 * s.ptr + n;
    var tail, last := LongTail(v, s.ptr, ub, n), LastBlock(v, s.t1, s.t0 + bitLen);
    HoldsPtr(v, s, stream);
    EndLength(v, s, stream, bitLen);
    EndBlock(v, s, stream, bitLen, tail);
    LongPads(v, stream, s.ptr, ub, n);
    var t := Adjusted(v, s.t0, s.t1, bitLen);
    var r := FeedAll(v, s.(t0 := t.0, t1 := t.1), tail);
    assert stream + tail + last == stream + (tail + last);
    ZeroCounterBlock(v, r, BitsOf(stream + tail), last, 8 * |stream| + n);
    BitsOfConcat(stream + tail, last);
  }

  /** A block with no message bits in it is compressed under a counter of zero. */
  lemma ZeroCounterBlock(v: Variant, s: State, p: Bits, last: seq<Byte>, length: nat)
    requires StateOk(v, s) && s.ptr == 0 && |last| == 2 * v.w && length <= |p|
    requires Whole(|p|, 16 * v.w) && s.h == Fold(v, p, length)
    ensures Whole(|p + BitsOf(last)|, 16 * v.w)
    ensures FeedAll(v, s.(t0 := v.Mod() - 16 * v.w, t1 := v.Mod() - 1), last).h == Fold(v, p + BitsOf(last), length)
  {
    hide Whole, BitsOf, Fold, Bump, FeedAll, Counts, Variant.Mod;
    ModLarge(v);
    var s' := s.(t0 := v.Mod() - 16 * v.w, t1 := v.Mod() - 1);
    FeedBlock(v, s', last);
    assert Stored(s.buf, 0, last) == last;
    FoldNext(v, p, BitsOf(last), length);
    BumpToZero(v);
  }

  lemma BumpToZero(v: Variant)
    requires v.Valid()
    ensures Bump(v, v.Mod() - 16 * v.w, v.Mod() - 1) == (0, 0)
    ensures 0 % v.Mod() == 0 && 0 / v.Mod() % v.Mod() == 0
  {
  }

  // ----- The context

  /** The context of a streaming hash; `stream` is what it was given since it was initialised. */
  class SphBlake {
    const v: Variant
    var buf: seq<Byte>
    var ptr: nat
    var h: Chain
    var t0: nat
    var t1: nat
    ghost var stream: seq<Byte>

    ghost function Now(): State
      reads this
    {
      State(buf, ptr, h, t0, t1)
    }

    ghost predicate Valid()
      reads this
    {
      Holds(v, Now(), stream)
    }

    constructor (v: Variant)
      requires v.Valid()
      ensures Valid() && stream == [] && this.v == v
    {
      this.v := v;
      buf, ptr, h, t0, t1 := seq(2 * v.w, i => NUL), 0, v.iv, 0, 0;
      stream := [];
      new;
      StartHolds(v);
    }

    /** blake32 and blake64: chunk by chunk, the effect is that of byte after byte. */
    method Core(data: seq<Byte>)
      requires StateOk(v, Now())
      modifies this`buf, this`ptr, this`h, this`t0, this`t1
      ensures Now() == FeedAll(v, old(Now()), data)
    {
      hide FeedAll, BitsOf, Variant.Mod;
      if |data| < 2 * v.w - ptr {
        FeedPart(v, Now(), data);
        buf := buf[..ptr] + data + buf[ptr + |data|..];
        ptr := ptr + |data|;
        return;
      }
      var b, p: nat, hh, u0: nat, u1: nat, rest := buf, ptr, h, t0, t1, data;
      ghost var done: seq<Byte> := [];
      FeedNone(v, Now());
      while |rest| > 0
        invariant done + rest == data && StateOk(v, State(b, p, hh, u0, u1))
        invariant Now() == old(Now()) && State(b, p, hh, u0, u1) == FeedAll(v, old(Now()), done)
      {
        ghost var s := State(b, p, hh, u0, u1);
        var clen := 2 * v.w - p;
        if clen > |rest| {
          clen := |rest|;
        }
        var chunk := rest[..clen];
        FeedSplit(v, old(Now()), done, chunk);
        b := b[..p] + chunk + b[p + clen..];
        if p + clen == 2 * v.w {
          FeedBlock(v, s, chunk);
          u0 := (u0 + 16 * v.w) % v.Mod();
          if u0 < 16 * v.w {
            u1 := (u1 + 1) % v.Mod();
          }
          hh := (v.compress)(hh, BitsOf(b), u0, u1);
          p := 0;
        } else {
          FeedPart(v, s, chunk);
          p := p + clen;
        }
        rest := rest[clen..];
        done := done + chunk;
      }
      assert done == data;
      buf, ptr, h, t0, t1 := b, p, hh, u0, u1;
    }

    /** The update functions. */
    method Update(data: seq<Byte>)
      requires Valid()
      modifies this`buf, this`ptr, this`h, this`t0, this`t1, this`stream
      ensures Valid() && stream == old(stream) + data
    {
      hide Holds, FeedAll;
      HoldsOk(v, Now(), stream);
      FeedAllHolds(v, Now(), stream, data);
      Core(data);
      stream := stream + data;
    }

    /** Sets the counter back, before the block with the last bits. */
    method SetCounter(n: nat, bitLen: nat)
      requires StateOk(v, Now()) && n < 8 && bitLen == 8 * ptr + n
      modifies this`t0, this`t1
      ensures (t0, t1) == Adjusted(v, old(t0), old(t1), bitLen)
    {
      hide Variant.Mod;
      ModLarge(v);
      if ptr == 0 && n == 0 {
        t0, t1 := v.Mod() - 16 * v.w, v.Mod() - 1;
      } else if t0 == 0 {
        t0, t1 := v.Mod() - 16 * v.w + bitLen, (t1 + v.Mod() - 1) % v.Mod();
      } else {
        t0 := (t0 + v.Mod() - (16 * v.w - bitLen)) % v.Mod();
      }
    }

    /** The close functions: with `n` more bits of `ub`, the digest of all that was taken in. */
    method Close(ub: Byte, n: nat) returns (dst: seq<Byte>)
      requires Valid() && n < 8
      modifies this`buf, this`ptr, this`h, this`t0, this`t1, this`stream
      ensures BitsOf(dst) == SpecDigest(v, old(BitsOf(stream)) + ub[..n])
      ensures Valid() && stream == []
    {
      hide Holds, FeedAll, BitsOf, Variant.Mod, Pad, Fold, Digest, ShortTail, LongTail, LastBlock, Adjusted;
      HoldsOk(v, Now(), stream);
      ModLarge(v);
      ghost var s := Now();
      var bitLen := 8 * ptr + n;
      var tl, th, start := t0 + bitLen, t1, ptr;
      SetCounter(n, bitLen);
      if bitLen <= 14 * v.w - 2 {
        ShortClose(v, s, stream, ub, n);
        Core(ShortTail(v, start, ub, n, th, tl));
      } else {
        LongClose(v, s, stream, ub, n);
        Core(LongTail(v, start, ub, n));
        t0, t1 := v.Mod() - 16 * v.w, v.Mod() - 1;
        Core(LastBlock(v, th, tl));
      }
      dst := Output(h, v.w, v.words);
      buf, ptr, h, t0, t1 := seq(2 * v.w, i => NUL), 0, v.iv, 0, 0;
      stream := [];
      StartHolds(v);
    }
  }

  lemma FeedNone(v: Variant, s: State)
    requires StateOk(v, s)
    ensures FeedAll(v, s, []) == s
  {
  }

  method Output(h: Chain, w: nat, words: nat) returns (dst: seq<Byte>)
    requires words <= 8 && w % 8 == 0
    ensures BitsOf(dst) == Digest(h, w, words)
  {
    hide BeBits, EncBe, BitsOf;
    dst := [];
    assert BitsOf(dst) == [];
    for k := 0 to words
      invariant BitsOf(dst) == Digest(h, w, k)
    {
      BitsOfConcat(dst, EncBe(h[k], w));
      EncBeBits(h[k], w);
      dst := dst + EncBe(h[k], w);
    }
  }
}
