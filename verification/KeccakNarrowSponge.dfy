/** The streaming Keccak hash on 32-bit words: its context holds the pairs of the state of the 64-bit
    one, so its digests are the same. */
module KeccakNarrowSponge {
  import opened Bytes
  import opened Words
  import opened Keccak
  import opened KeccakF
  import opened Interleave
  import opened KeccakNarrow
  import opened KeccakSponge

  // ----- The permutation

  lemma {:induction false} NarrowCodeRounds(f: Form, v: Lanes, rc: seq<Lane>, n: nat)
    requires n <= |rc|
    ensures Rounds2(f, RepAll(f, v), RepConstants(f, rc), n) == RepAll(f, CodeRounds(v, rc, n))
  {
    hide Round2, RepAll, Rep, CodeRound, RepConstants;
    if n > 0 {
      NarrowCodeRounds(f, v, rc, n - 1);
      NarrowRound(f, CodeRounds(v, rc, n - 1), rc[n - 1]);
    }
  }

  method Permute(f: Form, b: Pairs, rc: seq<Pair>) returns (v: Pairs)
    ensures v == Rounds2(f, b, rc, |rc|)
  {
    hide Round2;
    v := b;
    for j := 0 to |rc|
      invariant v == Rounds2(f, b, rc, j)
    {
      v := Round2(f, v, rc[j]);
    }
  }

  // ----- Input and output

  /** The pair of the two halves of a word of input. */
  function PairOf(f: Form, p: Pair): Pair {
    if f.EvenOdd? then Interleaved(p) else p
  }

  /** The two halves of a word of output. */
  function HalvesOf(f: Form, p: Pair): Pair {
    if f.EvenOdd? then Uninterleaved(p) else p
  }

  lemma PairOfIsRep(f: Form, w: Lane)
    ensures PairOf(f, Halves(w)) == Rep(f, w) && Joined(HalvesOf(f, Rep(f, w))) == w
  {
    hide Interleaved, Uninterleaved;
    InAndOut(w);
  }

  /** The 32-bit word read little-endian from four bytes. */
  function Dec32(buf: seq<Byte>, at: nat): Half
    requires at + 4 <= |buf|
  {
    BitsOf(buf[at..at + 4])
  }

  lemma DecHalves(buf: seq<Byte>, at: nat)
    requires at + 8 <= |buf|
    ensures Halves(Dec64(buf, at)) == Pair(Dec32(buf, at), Dec32(buf, at + 4))
  {
    hide BitsOf;
    assert buf[at..at + 8] == buf[at..at + 4] + buf[at + 4..at + 8];
    BitsOfConcat(buf[at..at + 4], buf[at + 4..at + 8]);
  }

  lemma RepUpdate(f: Form, v: Lanes, i: nat, w: Lane)
    requires i < 25
    ensures RepAll(f, v)[i := Xor2(RepAll(f, v)[i], Rep(f, w))] == RepAll(f, v[i := Xor(v[i], w)])
  {
    hide Rep, Xor, Xor2, RepAll;
    RepXor(f, v[i], w);
  }

  /** READ64 on one pair. */
  lemma ReadStep(f: Form, v: Lanes, buf: seq<Byte>, k: nat)
    requires k < 25 && 8 * k + 8 <= |buf|
    ensures var r, i := RepAll(f, v), LaneAt(k);
            r[i := Xor2(r[i], PairOf(f, Pair(Dec32(buf, 8 * k), Dec32(buf, 8 * k + 4))))]
            == RepAll(f, v[i := Xor(v[i], Dec64(buf, 8 * k))])
  {
    hide BitsOf, Xor, Xor2, LaneAt, RepAll, Rep, PairOf, Halves, Dec64, Dec32;
    RepUpdate(f, v, LaneAt(k), Dec64(buf, 8 * k));
    DecHalves(buf, 8 * k);
    PairOfIsRep(f, Dec64(buf, 8 * k));
  }

  /** INPUT_BUF. */
  method InputPairs(f: Form, narrow: Pairs, buf: seq<Byte>, lim: nat, ghost wide: Lanes) returns (r: Pairs)
    requires IsRate(8 * lim) && lim <= |buf| && narrow == RepAll(f, wide)
    ensures r == RepAll(f, XorBlock(wide, BitsOf(buf[..lim])))
  {
    hide BitsOf, XorBlock, Xor, Xor2, LaneAt, RepAll, Rep, PairOf, Halves, Dec64, Dec32;
    assert lim % 8 == 0 && lim <= 200;
    r := narrow;
    ghost var v, block := wide, BitsOf(buf[..lim]);
    assert Added(v, wide, block, 0);
    hide Added;
    for k := 0 to lim / 8
      invariant Added(v, wide, block, k) && r == RepAll(f, v)
    {
      WordOf(buf, lim, k);
      AddedNext(v, wide, block, k);
      ReadStep(f, v, buf, k);
      r := r[LaneAt(k) := Xor2(r[LaneAt(k)], PairOf(f, Pair(Dec32(buf, 8 * k), Dec32(buf, 8 * k + 4))))];
      v := v[LaneAt(k) := Xor(v[LaneAt(k)], Dec64(buf, 8 * k))];
    }
    AddedAll(v, wide, block);
  }

  /** Complements the words that keccak_init and the close functions list. */
  function FlipPairs(b: Pairs): (r: Pairs) {
    b[LaneAt(1) := Not2(b[LaneAt(1)])][LaneAt(2) := Not2(b[LaneAt(2)])][LaneAt(8) := Not2(b[LaneAt(8)])]
     [LaneAt(12) := Not2(b[LaneAt(12)])][LaneAt(17) := Not2(b[LaneAt(17)])][LaneAt(20) := Not2(b[LaneAt(20)])]
  }

  lemma RepNotAt(f: Form, v: Lanes, i: nat)
    requires i < 25
    ensures RepAll(f, v)[i := Not2(RepAll(f, v)[i])] == RepAll(f, v[i := Not(v[i])])
  {
    hide Rep, Not, Not2, RepAll;
    RepNot(f, v[i]);
  }

  lemma FlipPairsIs(f: Form, v: Lanes)
    ensures FlipPairs(RepAll(f, v)) == RepAll(f, FlipLanes(v))
  {
    hide Not, Not2, RepAll, Rep, LaneAt;
    assert LaneAt(1) == 5 && LaneAt(2) == 10 && LaneAt(8) == 16 && LaneAt(12) == 12 && LaneAt(17) == 13 && LaneAt(20) == 4 by {
      FlippedLanes();
    }
    RepNotAt(f, v, 5);
    var v1 := v[5 := Not(v[5])];
    RepNotAt(f, v1, 10);
    var v2 := v1[10 := Not(v1[10])];
    RepNotAt(f, v2, 16);
    var v3 := v2[16 := Not(v2[16])];
    RepNotAt(f, v3, 12);
    var v4 := v3[12 := Not(v3[12])];
    RepNotAt(f, v4, 13);
    var v5 := v4[13 := Not(v4[13])];
    RepNotAt(f, v5, 4);
  }

  lemma FlippedLanes()
    ensures LaneAt(1) == 5 && LaneAt(2) == 10 && LaneAt(8) == 16 && LaneAt(12) == 12 && LaneAt(17) == 13 && LaneAt(20) == 4
  {
  }

  function NoPairs(): Pairs {
    seq(25, i => Pair(seq(32, z => false), seq(32, z => false)))
  }

  lemma NoPairsIs(f: Form)
    ensures NoPairs() == RepAll(f, Zero())
  {
    hide RepAll;
    forall i | 0 <= i < 25
      ensures NoPairs()[i] == RepAll(f, Zero())[i]
    {
      assert Zero()[i] == seq(64, z => false);
      SamePair(NoPairs()[i], Rep(f, Zero()[i]));
    }
  }

  /** The words of the pairs, un-interleaved: two 32-bit words stand for one of 64 bits. */
  function WordsOf(f: Form, b: Pairs): (r: Lanes)
    ensures forall i | 0 <= i < 25 :: r[i] == Joined(HalvesOf(f, b[i]))
  {
    seq(25, i requires 0 <= i < 25 => Joined(HalvesOf(f, b[i])))
  }

  lemma WordsOfRep(f: Form, v: Lanes)
    ensures WordsOf(f, RepAll(f, v)) == v
  {
    hide Joined, HalvesOf, Rep, RepAll, WordsOf;
    forall i | 0 <= i < 25
      ensures WordsOf(f, RepAll(f, v))[i] == v[i]
    {
      PairOfIsRep(f, v[i]);
    }
  }

  // ----- The context

  class SphKeccakNarrow {
    const d: nat
    const form: Form
    const rc: seq<Lane>
    var buf: seq<Byte>
    var ptr: nat
    var lim: nat
    var narrow: Pairs
    ghost var wide: Lanes
    ghost var stream: seq<Byte>

    /** The pairs are those of the state that the 64-bit form would have. */
    ghost predicate Valid()
      reads this
    {
      && |rc| == 24 && |buf| == 144 && IsSize(d, lim)
      && narrow == RepAll(form, wide) && Buffered(buf, ptr, lim, wide, stream, rc)
    }

    constructor (d: nat, form: Form, rc: seq<Lane>)
      requires |rc| == 24 && (d == 28 || d == 32 || d == 48 || d == 64)
      ensures Valid() && stream == [] && this.d == d && this.rc == rc
    {
      hide FlipPairs, FlipLanes, NoPairs, RepAll, Buffered, InitialLanes;
      this.d, this.form, this.rc := d, form, rc;
      buf := seq(144, i => NUL);
      ptr := 0;
      lim := 200 - 8 * d / 4;
      narrow := FlipPairs(NoPairs());
      wide := InitialLanes();
      stream := [];
      new;
      NoPairsIs(form);
      FlipPairsIs(form, Zero());
      InitialIs();
      StartBuffered(buf, lim, rc);
    }

    /** keccak_core: takes in more of the message, in any portion. */
    method Core(data: seq<Byte>)
      requires Valid()
      modifies this`buf, this`ptr, this`narrow, this`wide, this`stream
      ensures Valid() && stream == old(stream) + data && lim == old(lim)
    {
      hide IsRate, Whole, Buffered, XorBlock, CodeRounds, Rounds2, RepConstants, BitsOf, RepAll;
      BufferedPtr(buf, ptr, lim, wide, stream, rc);
      if |data| < lim - ptr {
        FillBuffered(buf, ptr, lim, wide, stream, rc, data);
        buf := buf[..ptr] + data + buf[ptr + |data|..];
        ptr := ptr + |data|;
        stream := stream + data;
        return;
      }
      var b, p: nat, nv, rest := buf, ptr, narrow, data;
      ghost var v, s := wide, stream;
      while |rest| > 0
        invariant |b| == 144 && Buffered(b, p, lim, v, s, rc) && nv == RepAll(form, v)
        invariant s + rest == old(stream) + data && lim == old(lim)
      {
        BufferedPtr(b, p, lim, v, s, rc);
        var clen := lim - p;
        if clen > |rest| {
          clen := |rest|;
        }
        var chunk := rest[..clen];
        var b' := b[..p] + chunk + b[p + clen..];
        if p + clen == lim {
          BlockBuffered(b, p, lim, v, s, rc, chunk, b');
          nv := InputPairs(form, nv, b', lim, v);
          v := XorBlock(v, BitsOf(b'[..lim]));
          NarrowCodeRounds(form, v, rc, |rc|);
          nv := Permute(form, nv, RepConstants(form, rc));
          v := CodeRounds(v, rc, |rc|);
          p := 0;
        } else {
          FillBuffered(b, p, lim, v, s, rc, chunk);
          p := p + clen;
        }
        b, s, rest := b', s + chunk, rest[clen..];
      }
      assert s + rest == s;
      buf, ptr, narrow, wide, stream := b, p, nv, v, s;
    }

    /** The close functions: with `n` more bits of `ub`, the digest of all that was taken in. */
    method Close(ub: Byte, n: nat) returns (dst: seq<Byte>)
      requires Valid() && n < 8
      modifies this`buf, this`ptr, this`lim, this`narrow, this`wide, this`stream
      ensures |dst| == d
      ensures BitsOf(dst) == SpecDigest(old(BitsOf(stream)) + ub[8 - n..], 8 * (200 - 2 * d), 8 * d, rc)
      ensures Valid() && stream == []
    {
      hide IsRate, Whole, Buffered, BitsOf, Tail, Pad, Absorb, Flat, InitialLanes, FlipLanes, FlipPairs, RepAll, WordsOf, NoPairs;
      BufferedPtr(buf, ptr, lim, wide, stream, rc);
      ghost var s, from := stream, ptr;
      var tmp := Tail(ptr, lim, ub, n);
      Core(tmp);
      Closed(buf, ptr, lim, wide, s, rc, from, ub, n);
      FlipPairsIs(form, wide);
      WordsOfRep(form, FlipLanes(wide));
      dst := Output(WordsOf(form, FlipPairs(narrow)), d);
      buf, ptr, lim, narrow := seq(144, i => NUL), 0, 200 - 8 * d / 4, FlipPairs(NoPairs());
      wide, stream := InitialLanes(), [];
      NoPairsIs(form);
      FlipPairsIs(form, Zero());
      InitialIs();
      StartBuffered(buf, lim, rc);
    }
  }

  lemma InitialIs()
    ensures InitialLanes() == FlipLanes(Zero())
  {
  }
}
