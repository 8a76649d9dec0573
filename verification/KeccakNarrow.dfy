/** Keccak-f[1600] on 32-bit words: each lane is kept in two of them, either as its even and its odd
    bits or as its two halves, and every macro works on such pairs. */
module KeccakNarrow {
  import opened Words
  import opened Keccak
  import opened KeccakF
  import opened Interleave

  datatype Form = EvenOdd | LowHigh

  type Pairs = b: seq<Pair> | |b| == 25
    witness seq(25, i => Pair(seq(32, z => false), seq(32, z => false)))

  /** The two words of a lane. */
  function Rep(f: Form, w: Lane): Pair {
    if f.EvenOdd? then Split(w) else Halves(w)
  }

  function RepAll(f: Form, b: Lanes): (r: Pairs)
    ensures forall i | 0 <= i < 25 :: r[i] == Rep(f, b[i])
  {
    seq(25, i requires 0 <= i < 25 => Rep(f, b[i]))
  }

  // ----- The macros on pairs

  function Xor2(a: Pair, b: Pair): Pair { Pair(Xor(a.l, b.l), Xor(a.h, b.h)) }
  function And2(a: Pair, b: Pair): Pair { Pair(And(a.l, b.l), And(a.h, b.h)) }
  function Or2(a: Pair, b: Pair): Pair { Pair(Or(a.l, b.l), Or(a.h, b.h)) }
  function Not2(a: Pair): Pair { Pair(Not(a.l), Not(a.h)) }

  function Rol2(f: Form, v: Pair, n: nat): Pair
    requires n < 64
  {
    if n == 0 then v else if f.EvenOdd? then Rol64(v, n) else Rol64Halves(v, n)
  }

  function ThElt2(f: Form, c0: Pair, c1: Pair, c2: Pair, c3: Pair, c4: Pair,
                  d0: Pair, d1: Pair, d2: Pair, d3: Pair, d4: Pair): Pair
  {
    var tt0, tt1 := Xor2(d0, d1), Xor2(d2, d3);
    var tt0' := Rol2(f, Xor2(Xor2(tt0, d4), tt1), 1);
    var tt2, tt3 := Xor2(c0, c1), Xor2(c2, c3);
    Xor2(Xor2(tt0', c4), Xor2(tt2, tt3))
  }

  function ThOfColumns2(f: Form, b: Pairs, c: nat, d: nat): Pair
    requires c < 5 && d < 5
  {
    ThElt2(f, b[5 * c], b[5 * c + 1], b[5 * c + 2], b[5 * c + 3], b[5 * c + 4],
           b[5 * d], b[5 * d + 1], b[5 * d + 2], b[5 * d + 3], b[5 * d + 4])
  }

  function ThetaWord2(f: Form, b: Pairs, x: nat): Pair
    requires x < 5
  {
    match x
    case 0 => ThOfColumns2(f, b, 4, 1)
    case 1 => ThOfColumns2(f, b, 0, 2)
    case 2 => ThOfColumns2(f, b, 1, 3)
    case 3 => ThOfColumns2(f, b, 2, 4)
    case _ => ThOfColumns2(f, b, 3, 0)
  }

  function Theta2(f: Form, b: Pairs): (r: Pairs)
    ensures forall i | 0 <= i < 25 :: r[i] == Xor2(b[i], ThetaWord2(f, b, i / 5))
  {
    seq(25, i requires 0 <= i < 25 => Xor2(b[i], ThetaWord2(f, b, i / 5)))
  }

  function Rho2(f: Form, b: Pairs): (r: Pairs)
    ensures forall i | 0 <= i < 25 :: RhoCount(i) < 64 && r[i] == Rol2(f, b[i], RhoCount(i))
  {
    seq(25, i requires 0 <= i < 25 => Rol2(f, b[i], RhoCount(i)))
  }

  function Pi2(b: Pairs): (r: Pairs)
    ensures forall i | 0 <= i < 25 :: r[i] == b[PiSource(i)]
  {
    seq(25, i requires 0 <= i < 25 => b[PiSource(i)])
  }

  function Xo2(a: Pair, b: Pair, c: Pair): Pair { Xor2(a, Or2(b, c)) }
  function Xa2(a: Pair, b: Pair, c: Pair): Pair { Xor2(a, And2(b, c)) }

  datatype Row2 = Row2(r0: Pair, r1: Pair, r2: Pair, r3: Pair, r4: Pair) {
    function At(x: nat): Pair
      requires x < 5
    {
      match x
      case 0 => r0
      case 1 => r1
      case 2 => r2
      case 3 => r3
      case _ => r4
    }
  }

  function RowOf2(b: Pairs, y: nat): Row2
    requires y < 5
  {
    Row2(b[y], b[5 + y], b[10 + y], b[15 + y], b[20 + y])
  }

  /** One row of the KHI macro. */
  function KhiRow2(y: nat, b: Row2): Row2
    requires y < 5
  {
    match y
    case 0 =>
      var bnn := Not2(b.r2);
      Row2(Xo2(b.r0, b.r1, b.r2), Xo2(b.r1, bnn, b.r3), Xa2(b.r2, b.r3, b.r4), Xo2(b.r3, b.r4, b.r0), Xa2(b.r4, b.r0, b.r1))
    case 1 =>
      var bnn := Not2(b.r4);
      Row2(Xo2(b.r0, b.r1, b.r2), Xa2(b.r1, b.r2, b.r3), Xo2(b.r2, b.r3, bnn), Xo2(b.r3, b.r4, b.r0), Xa2(b.r4, b.r0, b.r1))
    case 2 =>
      var bnn := Not2(b.r3);
      Row2(Xo2(b.r0, b.r1, b.r2), Xa2(b.r1, b.r2, b.r3), Xa2(b.r2, bnn, b.r4), Xo2(bnn, b.r4, b.r0), Xa2(b.r4, b.r0, b.r1))
    case 3 =>
      var bnn := Not2(b.r3);
      Row2(Xa2(b.r0, b.r1, b.r2), Xo2(b.r1, b.r2, b.r3), Xo2(b.r2, bnn, b.r4), Xa2(bnn, b.r4, b.r0), Xo2(b.r4, b.r0, b.r1))
    case _ =>
      var bnn := Not2(b.r1);
      Row2(Xa2(b.r0, bnn, b.r2), Xo2(bnn, b.r2, b.r3), Xa2(b.r2, b.r3, b.r4), Xo2(b.r3, b.r4, b.r0), Xa2(b.r4, b.r0, b.r1))
  }

  function Khi2(b: Pairs): (r: Pairs)
    ensures forall i | 0 <= i < 25 :: r[i] == KhiRow2(i % 5, RowOf2(b, i % 5)).At(i / 5)
  {
    seq(25, i requires 0 <= i < 25 => KhiRow2(i % 5, RowOf2(b, i % 5)).At(i / 5))
  }

  function Iota2(b: Pairs, rc: Pair): Pairs {
    b[0 := Xor2(b[0], rc)]
  }

  /** One round, the step pi by renaming. */
  function Round2(f: Form, b: Pairs, rc: Pair): Pairs {
    Iota2(Khi2(Pi2(Rho2(f, Theta2(f, b)))), rc)
  }

  function Rounds2(f: Form, b: Pairs, rc: seq<Pair>, n: nat): Pairs
    requires n <= |rc|
  {
    if n == 0 then b else Round2(f, Rounds2(f, b, rc, n - 1), rc[n - 1])
  }

  // ----- And each of them is the macro on lanes

  lemma RepXor(f: Form, a: Lane, b: Lane)
    ensures Xor2(Rep(f, a), Rep(f, b)) == Rep(f, Xor(a, b))
  {
    hide Xor;
    if f.EvenOdd? {
      SplitCommutes(a, b);
    }
    SamePair(Xor2(Rep(f, a), Rep(f, b)), Rep(f, Xor(a, b)));
  }

  lemma RepAnd(f: Form, a: Lane, b: Lane)
    ensures And2(Rep(f, a), Rep(f, b)) == Rep(f, And(a, b))
  {
    hide And;
    if f.EvenOdd? {
      SplitCommutes(a, b);
    }
    SamePair(And2(Rep(f, a), Rep(f, b)), Rep(f, And(a, b)));
  }

  lemma RepOr(f: Form, a: Lane, b: Lane)
    ensures Or2(Rep(f, a), Rep(f, b)) == Rep(f, Or(a, b))
  {
    hide Or;
    if f.EvenOdd? {
      SplitCommutes(a, b);
    }
    SamePair(Or2(Rep(f, a), Rep(f, b)), Rep(f, Or(a, b)));
  }

  lemma RepNot(f: Form, a: Lane)
    ensures Not2(Rep(f, a)) == Rep(f, Not(a))
  {
    hide Not;
    if f.EvenOdd? {
      SplitCommutes(a, a);
    }
    SamePair(Not2(Rep(f, a)), Rep(f, Not(a)));
  }

  lemma RepRotl(f: Form, a: Lane, n: nat)
    requires n < 64
    ensures Rol2(f, Rep(f, a), n) == Rep(f, Rotl(a, n))
  {
    hide Rotl, Split, Halves, Rol64, Rol64Halves;
    if n == 0 {
      assert Rotl(a, 0) == a;
    } else if f.EvenOdd? {
      InterleavedRotation(a, n);
    } else {
      HalvesRotation(a, n);
    }
  }

  lemma RepThElt(f: Form, c0: Lane, c1: Lane, c2: Lane, c3: Lane, c4: Lane,
                 d0: Lane, d1: Lane, d2: Lane, d3: Lane, d4: Lane)
    ensures ThElt2(f, Rep(f, c0), Rep(f, c1), Rep(f, c2), Rep(f, c3), Rep(f, c4),
                   Rep(f, d0), Rep(f, d1), Rep(f, d2), Rep(f, d3), Rep(f, d4))
            == Rep(f, ThElt(c0, c1, c2, c3, c4, d0, d1, d2, d3, d4))
  {
    hide Rep, Xor, Xor2, Rotl, Rol2;
    var tt0, tt1 := Xor(d0, d1), Xor(d2, d3);
    RepXor(f, d0, d1);
    RepXor(f, d2, d3);
    RepXor(f, tt0, d4);
    RepXor(f, Xor(tt0, d4), tt1);
    var tt0' := Rotl(Xor(Xor(tt0, d4), tt1), 1);
    RepRotl(f, Xor(Xor(tt0, d4), tt1), 1);
    var tt2, tt3 := Xor(c0, c1), Xor(c2, c3);
    RepXor(f, c0, c1);
    RepXor(f, c2, c3);
    RepXor(f, tt0', c4);
    RepXor(f, tt2, tt3);
    RepXor(f, Xor(tt0', c4), Xor(tt2, tt3));
  }

  lemma RepColumns(f: Form, b: Lanes, c: nat, d: nat)
    requires c < 5 && d < 5
    ensures ThOfColumns2(f, RepAll(f, b), c, d) == Rep(f, ThOfColumns(b, c, d))
  {
    hide Rep, ThElt, ThElt2, RepAll;
    RepThElt(f, b[5 * c], b[5 * c + 1], b[5 * c + 2], b[5 * c + 3], b[5 * c + 4],
             b[5 * d], b[5 * d + 1], b[5 * d + 2], b[5 * d + 3], b[5 * d + 4]);
  }

  lemma RepThetaWord(f: Form, b: Lanes, x: nat)
    requires x < 5
    ensures ThetaWord2(f, RepAll(f, b), x) == Rep(f, ThetaWord(b, x))
  {
    hide Rep, ThOfColumns, ThOfColumns2, RepAll;
    RepColumns(f, b, (x + 4) % 5, (x + 1) % 5);
  }

  lemma RepTheta(f: Form, b: Lanes)
    ensures Theta2(f, RepAll(f, b)) == RepAll(f, Theta(b))
  {
    hide Rep, ThetaWord, ThetaWord2, Xor, Xor2, RepAll, Theta, Theta2;
    forall i | 0 <= i < 25
      ensures Theta2(f, RepAll(f, b))[i] == RepAll(f, Theta(b))[i]
    {
      RepThetaWord(f, b, i / 5);
      RepXor(f, b[i], ThetaWord(b, i / 5));
    }
  }

  lemma RepRho(f: Form, b: Lanes)
    ensures Rho2(f, RepAll(f, b)) == RepAll(f, Rho(b))
  {
    hide Rep, Rotl, Rol2, RhoCount, RepAll, Rho, Rho2;
    forall i | 0 <= i < 25
      ensures Rho2(f, RepAll(f, b))[i] == RepAll(f, Rho(b))[i]
    {
      RhoCountBelow(i);
      RepRotl(f, b[i], RhoCount(i));
    }
  }

  lemma RepPi(f: Form, b: Lanes)
    ensures Pi2(RepAll(f, b)) == RepAll(f, SpecPi(b))
  {
    hide Rep, PiSource, RepAll, SpecPi, Pi2;
    assert forall i | 0 <= i < 25 :: Pi2(RepAll(f, b))[i] == RepAll(f, SpecPi(b))[i];
  }

  lemma RepXo(f: Form, a: Lane, b: Lane, c: Lane)
    ensures Xo2(Rep(f, a), Rep(f, b), Rep(f, c)) == Rep(f, Xo(a, b, c))
    ensures Xa2(Rep(f, a), Rep(f, b), Rep(f, c)) == Rep(f, Xa(a, b, c))
  {
    hide Rep, Or, And, Xor, Or2, And2, Xor2;
    RepOr(f, b, c);
    RepAnd(f, b, c);
    RepXor(f, a, Or(b, c));
    RepXor(f, a, And(b, c));
  }

  function RepRow(f: Form, r: Row): Row2 {
    Row2(Rep(f, r.r0), Rep(f, r.r1), Rep(f, r.r2), Rep(f, r.r3), Rep(f, r.r4))
  }

  lemma RepKhiRow(f: Form, y: nat, r: Row)
    requires y < 5
    ensures KhiRow2(y, RepRow(f, r)) == RepRow(f, KhiRow(y, r))
  {
    hide Rep, Xo, Xa, Xo2, Xa2, Not, Not2;
    var n := match y case 0 => Not(r.r2) case 1 => Not(r.r4) case 2 => Not(r.r3) case 3 => Not(r.r3) case _ => Not(r.r1);
    RepNot(f, match y case 0 => r.r2 case 1 => r.r4 case 2 => r.r3 case 3 => r.r3 case _ => r.r1);
    var s1, s3 := if y == 4 then n else r.r1, if y == 2 || y == 3 then n else r.r3;
    RepXo(f, r.r0, s1, r.r2);
    RepXo(f, if y == 4 then n else r.r1, if y == 0 then n else r.r2, r.r3);
    RepXo(f, r.r2, s3, if y == 1 then n else r.r4);
    RepXo(f, s3, r.r4, r.r0);
    RepXo(f, r.r4, r.r0, r.r1);
  }

  lemma RepRowOf(f: Form, b: Lanes, y: nat, x: nat)
    requires y < 5 && x < 5
    ensures RowOf2(RepAll(f, b), y) == RepRow(f, RowOf(b, y))
    ensures RepRow(f, RowOf(b, y)).At(x) == Rep(f, RowOf(b, y).At(x))
  {
    hide Rep, RepAll;
  }

  lemma RepAt(f: Form, r: Row, x: nat)
    requires x < 5
    ensures RepRow(f, r).At(x) == Rep(f, r.At(x))
  {
    hide Rep;
  }

  lemma RepKhi(f: Form, b: Lanes)
    ensures Khi2(RepAll(f, b)) == RepAll(f, Khi(b))
  {
    hide Rep, RepAll, Khi, Khi2, KhiRow, KhiRow2, RowOf, RowOf2, RepRow, Row.At, Row2.At;
    forall i | 0 <= i < 25
      ensures Khi2(RepAll(f, b))[i] == RepAll(f, Khi(b))[i]
    {
      var x, y := i / 5, i % 5;
      RepRowOf(f, b, y, x);
      RepKhiRow(f, y, RowOf(b, y));
      RepAt(f, KhiRow(y, RowOf(b, y)), x);
    }
  }

  lemma RepIota(f: Form, b: Lanes, rc: Lane)
    ensures Iota2(RepAll(f, b), Rep(f, rc)) == RepAll(f, Iota(b, rc))
  {
    hide Rep, Xor, Xor2, RepAll;
    RepXor(f, b[0], rc);
  }

  /** A round on pairs is the round on lanes, in both forms. */
  lemma NarrowRound(f: Form, b: Lanes, rc: Lane)
    ensures Round2(f, RepAll(f, b), Rep(f, rc)) == RepAll(f, CodeRound(b, rc))
  {
    hide Rep, Xor2, RepAll, Theta, Theta2, Rho, Rho2, SpecPi, Pi2, Khi, Khi2, Iota, Iota2;
    RepTheta(f, b);
    RepRho(f, Theta(b));
    RepPi(f, Rho(Theta(b)));
    RepKhi(f, SpecPi(Rho(Theta(b))));
    RepIota(f, Khi(SpecPi(Rho(Theta(b)))), rc);
  }

  function RepConstants(f: Form, rc: seq<Lane>): (r: seq<Pair>)
    ensures |r| == |rc| && forall i | 0 <= i < |rc| :: r[i] == Rep(f, rc[i])
  {
    seq(|rc|, i requires 0 <= i < |rc| => Rep(f, rc[i]))
  }

  /** On the pairs of a state with the kept lanes complemented, the rounds give the pairs of the
      rounds of FIPS 202, with the same lanes complemented. */
  lemma {:induction false} NarrowRounds(f: Form, b: Lanes, rc: seq<Lane>, n: nat)
    requires n <= |rc|
    ensures Rounds2(f, RepAll(f, Complement(b, Kept)), RepConstants(f, rc), n)
            == RepAll(f, Complement(SpecRounds(b, rc, n), Kept))
  {
    hide Round2, RepAll, Rep, CodeRound, SpecRound, Complement, RepConstants;
    if n > 0 {
      NarrowRounds(f, b, rc, n - 1);
      NarrowRound(f, Complement(SpecRounds(b, rc, n - 1), Kept), rc[n - 1]);
      RoundOfComplement(SpecRounds(b, rc, n - 1), rc[n - 1]);
    }
  }

  // ----- In and out of the interleaved form

  /** What INTERLEAVE makes of the two halves of a word of input is its pair, and UNINTERLEAVE gives
      the halves back for the output. */
  lemma InAndOut(w: Lane)
    ensures Interleaved(Halves(w)) == Rep(EvenOdd, w) && Uninterleaved(Rep(EvenOdd, w)) == Halves(w)
    ensures Joined(Halves(w)) == w
  {
    hide Interleaved, Uninterleaved, Split;
    assert Joined(Halves(w)) == w;
    InterleaveSplits(Halves(w));
    UninterleaveInterleave(Halves(w));
  }
}
