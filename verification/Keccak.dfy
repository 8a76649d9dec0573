/** The Keccak-f[1600] permutation with the lane-complement optimisation, against the
    permutation of sections 3.2 and 3.3 of FIPS 202. Lane (x, y) has index 5x + y. */
module Keccak {
  import opened Words

  type Lane = Word64
  type Lanes = b: seq<Lane> | |b| == 25 witness seq(25, i => seq(64, z => false))

  // ----- FIPS 202, bit by bit

  predicate Parity5(a: bool, b: bool, c: bool, d: bool, e: bool) {
    (((a != b) != c) != d) != e
  }

  predicate ColumnParity(b: Lanes, x: nat, z: nat)
    requires x < 5 && z < 64
  {
    Parity5(b[5 * x][z], b[5 * x + 1][z], b[5 * x + 2][z], b[5 * x + 3][z], b[5 * x + 4][z])
  }

  predicate ThetaEffect(b: Lanes, x: nat, z: nat)
    requires x < 5 && z < 64
  {
    ColumnParity(b, (x + 4) % 5, z) != ColumnParity(b, (x + 1) % 5, (z + 63) % 64)
  }

  function SpecTheta(b: Lanes): (r: Lanes)
    ensures forall i, z | 0 <= i < 25 && 0 <= z < 64 :: r[i][z] == (b[i][z] != ThetaEffect(b, i / 5, z))
  {
    seq(25, i requires 0 <= i < 25 => seq(64, z requires 0 <= z < 64 => b[i][z] != ThetaEffect(b, i / 5, z)))
  }

  /** The lane that step `t` of the algorithm for rho rotates: from (1, 0) on, (x, y)
      is followed by (y, 2x + 3y). */
  function WalkLane(t: nat): (i: nat)
    ensures i < 25
  {
    if t == 0 then 5
    else
      var i := WalkLane(t - 1);
      5 * (i % 5) + (2 * (i / 5) + 3 * (i % 5)) % 5
  }

  /** `r` is the lane `i` rotated as rho does: by (t + 1)(t + 2) / 2 for the step `t` of the
      walk that reaches it, and not at all for lane (0, 0). */
  ghost predicate IsRhoLane(i: nat, a: Lane, r: Lane) {
    if i == 0 then r == a
    else exists t: nat :: t < 24 && WalkLane(t) == i && IsRotated(a, r, (t + 1) * (t + 2) / 2)
  }

  ghost predicate IsRotated(a: Lane, r: Lane, n: nat) {
    forall z | 0 <= z < 64 :: r[(z + n) % 64] == a[z]
  }

  ghost predicate IsSpecRho(b: Lanes, r: Lanes) {
    forall i | 0 <= i < 25 :: IsRhoLane(i, b[i], r[i])
  }

  /** Where lane (x, y) comes from in the step pi: from ((x + 3y) mod 5, x). */
  function PiSource(i: nat): (j: nat)
    requires i < 25
    ensures j < 25
  {
    5 * ((i / 5 + 3 * (i % 5)) % 5) + i / 5
  }

  function SpecPi(b: Lanes): (r: Lanes)
    ensures forall i | 0 <= i < 25 :: r[i] == b[PiSource(i)]
  {
    seq(25, i requires 0 <= i < 25 => b[PiSource(i)])
  }

  function SpecChi(b: Lanes): (r: Lanes)
    ensures forall i, z | 0 <= i < 25 && 0 <= z < 64 ::
              r[i][z] == (b[i][z] != (!b[(i + 5) % 25][z] && b[(i + 10) % 25][z]))
  {
    seq(25, i requires 0 <= i < 25 => seq(64, z requires 0 <= z < 64 =>
      b[i][z] != (!b[(i + 5) % 25][z] && b[(i + 10) % 25][z])))
  }

  function Iota(b: Lanes, rc: Lane): Lanes {
    b[0 := Xor(b[0], rc)]
  }

  // ----- The macros of the code, on the 25 lanes they are applied to

  function ThElt(c0: Lane, c1: Lane, c2: Lane, c3: Lane, c4: Lane,
                 d0: Lane, d1: Lane, d2: Lane, d3: Lane, d4: Lane): (t: Lane)
    ensures forall z | 0 <= z < 64 ::
              var w := (z + 63) % 64;
              t[z] == (Parity5(c0[z], c1[z], c2[z], c3[z], c4[z]) != Parity5(d0[w], d1[w], d2[w], d3[w], d4[w]))
  {
    var tt0, tt1 := Xor(d0, d1), Xor(d2, d3);
    var tt0' := Rotl(Xor(Xor(tt0, d4), tt1), 1);
    var tt2, tt3 := Xor(c0, c1), Xor(c2, c3);
    Xor(Xor(tt0', c4), Xor(tt2, tt3))
  }

  function ThOfColumns(b: Lanes, c: nat, d: nat): Lane
    requires c < 5 && d < 5
  {
    ThElt(b[5 * c], b[5 * c + 1], b[5 * c + 2], b[5 * c + 3], b[5 * c + 4],
          b[5 * d], b[5 * d + 1], b[5 * d + 2], b[5 * d + 3], b[5 * d + 4])
  }

  /** The words t0 to t4 of the THETA macro. */
  function ThetaWord(b: Lanes, x: nat): Lane
    requires x < 5
  {
    match x
    case 0 => ThOfColumns(b, 4, 1)
    case 1 => ThOfColumns(b, 0, 2)
    case 2 => ThOfColumns(b, 1, 3)
    case 3 => ThOfColumns(b, 2, 4)
    case _ => ThOfColumns(b, 3, 0)
  }

  function Theta(b: Lanes): (r: Lanes)
    ensures forall i | 0 <= i < 25 :: r[i] == Xor(b[i], ThetaWord(b, i / 5))
  {
    seq(25, i requires 0 <= i < 25 => Xor(b[i], ThetaWord(b, i / 5)))
  }

  lemma ThOfColumnsIsEffect(b: Lanes, c: nat, d: nat, z: nat)
    requires c < 5 && d < 5 && z < 64
    ensures ThOfColumns(b, c, d)[z] == (ColumnParity(b, c, z) != ColumnParity(b, d, (z + 63) % 64))
  {
    hide ThElt, Parity5;
  }

  lemma ThetaWordIsEffect(b: Lanes, x: nat, z: nat)
    requires x < 5 && z < 64
    ensures ThetaWord(b, x)[z] == ThetaEffect(b, x, z)
  {
    hide ThOfColumns, ColumnParity;
    ThOfColumnsIsEffect(b, (x + 4) % 5, (x + 1) % 5, z);
  }

  lemma ThetaIsSpec(b: Lanes)
    ensures Theta(b) == SpecTheta(b)
  {
    forall i | 0 <= i < 25
      ensures Theta(b)[i] == SpecTheta(b)[i]
    {
      ThetaLaneIsSpec(b, i);
    }
  }

  lemma ThetaLaneIsSpec(b: Lanes, i: nat)
    requires i < 25
    ensures Theta(b)[i] == SpecTheta(b)[i]
  {
    hide Theta, SpecTheta, ThetaWord, ThetaEffect;
    forall z | 0 <= z < 64
      ensures Theta(b)[i][z] == SpecTheta(b)[i][z]
    {
      ThetaWordIsEffect(b, i / 5, z);
    }
  }

  // ----- Rho

  /** The rotation counts of the RHO macro, lane by lane. */
  function RhoCount(i: nat): nat
    requires i < 25
  {
    match i
    case 0 => 0 case 1 => 36 case 2 => 3 case 3 => 41 case 4 => 18
    case 5 => 1 case 6 => 44 case 7 => 10 case 8 => 45 case 9 => 2
    case 10 => 62 case 11 => 6 case 12 => 43 case 13 => 15 case 14 => 61
    case 15 => 28 case 16 => 55 case 17 => 25 case 18 => 21 case 19 => 56
    case 20 => 27 case 21 => 20 case 22 => 39 case 23 => 8 case _ => 14
  }

  lemma RhoCountBelow(i: nat)
    requires i < 25
    ensures RhoCount(i) < 64
  {
  }

  function Rho(b: Lanes): (r: Lanes)
    ensures forall i | 0 <= i < 25 :: RhoCount(i) < 64 && r[i] == Rotl(b[i], RhoCount(i))
  {
    seq(25, i requires 0 <= i < 25 => Rotl(b[i], RhoCount(i)))
  }

  // The lanes of the walk, and the step that reaches each lane.
  function WalkTable(t: nat): nat
    requires t < 24
  {
    match t
    case 0 => 5 case 1 => 2 case 2 => 11 case 3 => 7 case 4 => 13
    case 5 => 18 case 6 => 15 case 7 => 1 case 8 => 8 case 9 => 16
    case 10 => 9 case 11 => 24 case 12 => 20 case 13 => 3 case 14 => 19
    case 15 => 23 case 16 => 17 case 17 => 12 case 18 => 10 case 19 => 4
    case 20 => 22 case 21 => 14 case 22 => 21 case _ => 6
  }

  function StepOf(i: nat): nat
    requires i < 25
  {
    match i
    case 0 => 0 case 1 => 7 case 2 => 1 case 3 => 13 case 4 => 19
    case 5 => 0 case 6 => 23 case 7 => 3 case 8 => 8 case 9 => 10
    case 10 => 18 case 11 => 2 case 12 => 17 case 13 => 4 case 14 => 21
    case 15 => 6 case 16 => 9 case 17 => 16 case 18 => 5 case 19 => 14
    case 20 => 12 case 21 => 22 case 22 => 20 case 23 => 15 case _ => 11
  }

  lemma StepReaches(i: nat)
    requires 1 <= i < 25
    ensures var t := StepOf(i); t < 24 && WalkTable(t) == i && RhoCount(i) == (t + 1) * (t + 2) / 2 % 64
  {
    match i
    case 1 =>
    case 2 =>
    case 3 =>
    case 4 =>
    case 5 =>
    case 6 =>
    case 7 =>
    case 8 =>
    case 9 =>
    case 10 =>
    case 11 =>
    case 12 =>
    case 13 =>
    case 14 =>
    case 15 =>
    case 16 =>
    case 17 =>
    case 18 =>
    case 19 =>
    case 20 =>
    case 21 =>
    case 22 =>
    case 23 =>
    case _ =>
  }

  lemma TableStep(t: nat)
    requires 1 <= t < 24
    ensures var i := WalkTable(t - 1); WalkTable(t) == 5 * (i % 5) + (2 * (i / 5) + 3 * (i % 5)) % 5
  {
    match t
    case 1 =>
    case 2 =>
    case 3 =>
    case 4 =>
    case 5 =>
    case 6 =>
    case 7 =>
    case 8 =>
    case 9 =>
    case 10 =>
    case 11 =>
    case 12 =>
    case 13 =>
    case 14 =>
    case 15 =>
    case 16 =>
    case 17 =>
    case 18 =>
    case 19 =>
    case 20 =>
    case 21 =>
    case 22 =>
    case _ =>
  }

  lemma {:induction false} WalkAt(t: nat)
    requires t < 24
    ensures WalkLane(t) == WalkTable(t)
  {
    hide WalkTable;
    if t == 0 {
      WalkStart();
    } else {
      WalkAt(t - 1);
      TableStep(t);
    }
  }

  lemma WalkStart()
    ensures WalkTable(0) == 5
  {
  }

  lemma RhoIsSpec(b: Lanes)
    ensures IsSpecRho(b, Rho(b))
  {
    hide Rho, Rotl, WalkTable, StepOf, RhoCount, WalkLane;
    forall i | 0 <= i < 25
      ensures IsRhoLane(i, b[i], Rho(b)[i])
    {
      if i == 0 {
        RhoZero(b);
      } else {
        StepReaches(i);
        var t := StepOf(i);
        WalkAt(t);
        RotatedBy(b[i], RhoCount(i), (t + 1) * (t + 2) / 2);
      }
    }
  }

  lemma RhoZero(b: Lanes)
    ensures Rho(b)[0] == b[0]
  {
    hide Rotl;
    assert forall z | 0 <= z < 64 :: Rotl(b[0], 0)[z] == b[0][z];
  }

  lemma RotatedBy(a: Lane, n: nat, m: nat)
    requires n < 64 && n == m % 64
    ensures IsRotated(a, Rotl(a, n), m)
  {
    hide Rotl;
    forall z | 0 <= z < 64
      ensures Rotl(a, n)[(z + m) % 64] == a[z]
    {
      assert (z + m) % 64 == (z + n) % 64;
    }
  }

  /** And it is the only result that the step rho allows. */
  lemma RhoIsOnlySpec(b: Lanes, r: Lanes)
    requires IsSpecRho(b, r)
    ensures r == Rho(b)
  {
    hide Rho, Rotl, WalkTable, StepOf, RhoCount, WalkLane, IsRotated;
    forall i | 0 <= i < 25
      ensures r[i] == Rho(b)[i]
    {
      assert IsRhoLane(i, b[i], r[i]);
      if i == 0 {
        RhoZero(b);
      } else {
        var t: nat :| t < 24 && WalkLane(t) == i && IsRotated(b[i], r[i], (t + 1) * (t + 2) / 2);
        WalkAt(t);
        StepOfWalk(t);
        StepReaches(i);
        RotatedOnly(b[i], r[i], RhoCount(i), (t + 1) * (t + 2) / 2);
      }
    }
  }

  lemma StepOfWalk(t: nat)
    requires t < 24
    ensures WalkTable(t) < 25 && StepOf(WalkTable(t)) == t
  {
    match t
    case 0 =>
    case 1 =>
    case 2 =>
    case 3 =>
    case 4 =>
    case 5 =>
    case 6 =>
    case 7 =>
    case 8 =>
    case 9 =>
    case 10 =>
    case 11 =>
    case 12 =>
    case 13 =>
    case 14 =>
    case 15 =>
    case 16 =>
    case 17 =>
    case 18 =>
    case 19 =>
    case 20 =>
    case 21 =>
    case 22 =>
    case _ =>
  }

  lemma RotatedOnly(a: Lane, r: Lane, n: nat, m: nat)
    requires n < 64 && n == m % 64 && IsRotated(a, r, m)
    ensures r == Rotl(a, n)
  {
    hide Rotl;
    forall z | 0 <= z < 64
      ensures r[z] == Rotl(a, n)[z]
    {
      var w := if n <= z then z - n else z + 64 - n;
      assert (w + m) % 64 == z;
    }
  }

  // ----- Chi, with complemented lanes

  function Xo(a: Lane, b: Lane, c: Lane): Lane { Xor(a, Or(b, c)) }
  function Xa(a: Lane, b: Lane, c: Lane): Lane { Xor(a, And(b, c)) }

  /** The five lanes of a row, x from 0 to 4. */
  datatype Row = Row(r0: Lane, r1: Lane, r2: Lane, r3: Lane, r4: Lane) {
    function At(x: nat): Lane
      requires x < 5
    {
      match x
      case 0 => r0
      case 1 => r1
      case 2 => r2
      case 3 => r3
      case _ => r4
    }
  }

  function RowOf(b: Lanes, y: nat): Row
    requires y < 5
  {
    Row(b[y], b[5 + y], b[10 + y], b[15 + y], b[20 + y])
  }

  /** One row of the KHI macro. */
  function KhiRow(y: nat, b: Row): Row
    requires y < 5
  {
    match y
    case 0 =>
      var bnn := Not(b.r2);
      Row(Xo(b.r0, b.r1, b.r2), Xo(b.r1, bnn, b.r3), Xa(b.r2, b.r3, b.r4), Xo(b.r3, b.r4, b.r0), Xa(b.r4, b.r0, b.r1))
    case 1 =>
      var bnn := Not(b.r4);
      Row(Xo(b.r0, b.r1, b.r2), Xa(b.r1, b.r2, b.r3), Xo(b.r2, b.r3, bnn), Xo(b.r3, b.r4, b.r0), Xa(b.r4, b.r0, b.r1))
    case 2 =>
      var bnn := Not(b.r3);
      Row(Xo(b.r0, b.r1, b.r2), Xa(b.r1, b.r2, b.r3), Xa(b.r2, bnn, b.r4), Xo(bnn, b.r4, b.r0), Xa(b.r4, b.r0, b.r1))
    case 3 =>
      var bnn := Not(b.r3);
      Row(Xa(b.r0, b.r1, b.r2), Xo(b.r1, b.r2, b.r3), Xo(b.r2, bnn, b.r4), Xa(bnn, b.r4, b.r0), Xo(b.r4, b.r0, b.r1))
    case _ =>
      var bnn := Not(b.r1);
      Row(Xa(b.r0, bnn, b.r2), Xo(bnn, b.r2, b.r3), Xa(b.r2, b.r3, b.r4), Xo(b.r3, b.r4, b.r0), Xa(b.r4, b.r0, b.r1))
  }

  function Khi(b: Lanes): (r: Lanes)
    ensures forall i | 0 <= i < 25 :: r[i] == KhiRow(i % 5, RowOf(b, i % 5)).At(i / 5)
  {
    seq(25, i requires 0 <= i < 25 => KhiRow(i % 5, RowOf(b, i % 5)).At(i / 5))
  }

  /** The lanes kept complemented between rounds: a04, a10, a20, a22, a23, a31. */
  predicate Kept(i: nat) { i == 4 || i == 5 || i == 10 || i == 12 || i == 13 || i == 16 }

  /** Theta moves the complement of columns 0 and 3 from one lane to the four others. */
  predicate KeptByTheta(i: nat) { Kept(i) != (i / 5 == 0 || i / 5 == 3) }

  /** On input of KHI, these: a00 a01 a02 a04 a13 a20 a21 a22 a30 a33 a34 a43. */
  predicate KeptByPi(i: nat) {
    i == 0 || i == 1 || i == 2 || i == 4 || i == 8 || i == 10 || i == 11 || i == 12 || i == 15 || i == 18 || i == 19 || i == 23
  }

  function Flip(c: bool, a: Bits): (r: Bits)
    ensures |r| == |a|
    ensures forall z | 0 <= z < |a| :: r[z] == (c != a[z])
  {
    if c then Not(a) else a
  }

  function Complement(b: Lanes, kept: nat -> bool): (r: Lanes)
    ensures forall i | 0 <= i < 25 :: r[i] == Flip(kept(i), b[i])
  {
    assert forall i: nat | i < 25 :: |Flip(kept(i), b[i])| == 64;
    seq(25, i requires 0 <= i < 25 => Flip(kept(i), b[i]))
  }

  lemma PiMovesComplement(i: nat)
    requires i < 25
    ensures KeptByTheta(PiSource(i)) == KeptByPi(i)
  {
    var x, y := i / 5, i % 5;
    assert i == 5 * x + y;
    PiMovesLane(x, y);
  }

  lemma PiMovesLane(x: nat, y: nat)
    requires x < 5 && y < 5
    ensures KeptByTheta(5 * ((x + 3 * y) % 5) + x) == KeptByPi(5 * x + y)
  {
    match y
    case 0 =>
    case 1 =>
    case 2 =>
    case 3 =>
    case _ =>
  }

  /** The parity of column x flips when an odd number of its lanes is complemented: all but column 4. */
  lemma ParityOfComplement(b: Lanes, x: nat, z: nat)
    requires x < 5 && z < 64
    ensures ColumnParity(Complement(b, Kept), x, z) == ((x != 4) != ColumnParity(b, x, z))
  {
    hide Complement;
    match x
    case 0 =>
    case 1 =>
    case 2 =>
    case 3 =>
    case _ =>
  }

  lemma ThetaOfComplement(b: Lanes)
    ensures SpecTheta(Complement(b, Kept)) == Complement(SpecTheta(b), KeptByTheta)
  {
    forall i | 0 <= i < 25
      ensures SpecTheta(Complement(b, Kept))[i] == Complement(SpecTheta(b), KeptByTheta)[i]
    {
      ThetaLaneOfComplement(b, i);
    }
  }

  lemma ThetaLaneOfComplement(b: Lanes, i: nat)
    requires i < 25
    ensures SpecTheta(Complement(b, Kept))[i] == Complement(SpecTheta(b), KeptByTheta)[i]
  {
    hide SpecTheta, Complement, Kept, ColumnParity, Flip;
    forall z | 0 <= z < 64
      ensures SpecTheta(Complement(b, Kept))[i][z] == Complement(SpecTheta(b), KeptByTheta)[i][z]
    {
      var x := i / 5;
      ParityOfComplement(b, (x + 4) % 5, z);
      ParityOfComplement(b, (x + 1) % 5, (z + 63) % 64);
    }
  }

  lemma RhoOfComplement(b: Lanes, kept: nat -> bool)
    ensures Rho(Complement(b, kept)) == Complement(Rho(b), kept)
  {
    hide Rho, Complement, RhoCount;
    forall i | 0 <= i < 25
      ensures RhoCount(i) < 64
    {
      RhoCountBelow(i);
    }
    forall i | 0 <= i < 25
      ensures Rho(Complement(b, kept))[i] == Complement(Rho(b), kept)[i]
    {
      RotlOfFlip(kept(i), b[i], RhoCount(i));
    }
  }

  lemma RotlOfFlip(c: bool, a: Lane, n: nat)
    requires n < 64
    ensures Rotl(Flip(c, a), n) == Flip(c, Rotl(a, n))
  {
    hide Rotl, Flip;
    assert forall z | 0 <= z < 64 :: Rotl(Flip(c, a), n)[z] == Flip(c, Rotl(a, n))[z];
  }

  lemma PiOfComplement(b: Lanes)
    ensures SpecPi(Complement(b, KeptByTheta)) == Complement(SpecPi(b), KeptByPi)
  {
    hide SpecPi, Complement, KeptByTheta, KeptByPi;
    forall i | 0 <= i < 25
      ensures SpecPi(Complement(b, KeptByTheta))[i] == Complement(SpecPi(b), KeptByPi)[i]
    {
      PiMovesComplement(i);
    }
  }

  /** With the complements that reach it, the KHI macro computes chi, and leaves the kept ones. */
  lemma KhiOfComplement(b: Lanes)
    ensures Khi(Complement(b, KeptByPi)) == Complement(SpecChi(b), Kept)
  {
    forall i | 0 <= i < 25
      ensures Khi(Complement(b, KeptByPi))[i] == Complement(SpecChi(b), Kept)[i]
    {
      KhiLaneOfComplement(b, i);
    }
  }

  lemma KhiLaneOfComplement(b: Lanes, i: nat)
    requires i < 25
    ensures Khi(Complement(b, KeptByPi))[i] == Complement(SpecChi(b), Kept)[i]
  {
    hide Khi, Complement, SpecChi, KhiRow, KeptByPi, Kept, RowOf;
    ComplementRow(b, i % 5);
    forall z | 0 <= z < 64
      ensures Khi(Complement(b, KeptByPi))[i][z] == Complement(SpecChi(b), Kept)[i][z]
    {
      KhiBitAt(b, i, z);
    }
  }

  lemma KhiBitAt(b: Lanes, i: nat, z: nat)
    requires i < 25 && z < 64
    ensures KhiRow(i % 5, FlipRow(i % 5, RowOf(b, i % 5))).At(i / 5)[z]
            == (Kept(i) != (b[i][z] != (!b[(i + 5) % 25][z] && b[(i + 10) % 25][z])))
  {
    hide KhiRow, KeptByPi, Kept, RowOf, FlipRow, Row.At;
    var x, y := i / 5, i % 5;
    assert i == 5 * x + y;
    KhiBit(y, RowOf(b, y), x, z);
    RowLanes(b, x, y);
  }

  function FlipRow(y: nat, r: Row): Row
    requires y < 5
  {
    Row(Flip(KeptByPi(y), r.r0), Flip(KeptByPi(5 + y), r.r1), Flip(KeptByPi(10 + y), r.r2),
        Flip(KeptByPi(15 + y), r.r3), Flip(KeptByPi(20 + y), r.r4))
  }

  lemma ComplementRow(b: Lanes, y: nat)
    requires y < 5
    ensures RowOf(Complement(b, KeptByPi), y) == FlipRow(y, RowOf(b, y))
  {
    hide Complement, Flip, KeptByPi;
  }

  lemma RowLanes(b: Lanes, x: nat, y: nat)
    requires x < 5 && y < 5
    ensures RowOf(b, y).At(x) == b[5 * x + y]
    ensures RowOf(b, y).At((x + 1) % 5) == b[(5 * x + y + 5) % 25]
    ensures RowOf(b, y).At((x + 2) % 5) == b[(5 * x + y + 10) % 25]
  {
  }

  /** Chi on one bit of a row. */
  predicate ChiBit(r: Row, x: nat, z: nat)
    requires x < 5 && z < 64
  {
    r.At(x)[z] != (!r.At((x + 1) % 5)[z] && r.At((x + 2) % 5)[z])
  }

  lemma KhiBit(y: nat, r: Row, x: nat, z: nat)
    requires y < 5 && x < 5 && z < 64
    ensures KhiRow(y, FlipRow(y, r)).At(x)[z] == (Kept(5 * x + y) != ChiBit(r, x, z))
  {
    match y
    case 0 => KhiBit0(r, x, z);
    case 1 => KhiBit1(r, x, z);
    case 2 => KhiBit2(r, x, z);
    case 3 => KhiBit3(r, x, z);
    case _ => KhiBit4(r, x, z);
  }

  lemma KhiBit0(r: Row, x: nat, z: nat)
    requires x < 5 && z < 64
    ensures KhiRow(0, FlipRow(0, r)).At(x)[z] == (Kept(5 * x + 0) != ChiBit(r, x, z))
  {
    hide Flip;
    match x
    case 0 =>
    case 1 =>
    case 2 =>
    case 3 =>
    case _ =>
  }

  lemma KhiBit1(r: Row, x: nat, z: nat)
    requires x < 5 && z < 64
    ensures KhiRow(1, FlipRow(1, r)).At(x)[z] == (Kept(5 * x + 1) != ChiBit(r, x, z))
  {
    hide Flip;
    match x
    case 0 =>
    case 1 =>
    case 2 =>
    case 3 =>
    case _ =>
  }

  lemma KhiBit2(r: Row, x: nat, z: nat)
    requires x < 5 && z < 64
    ensures KhiRow(2, FlipRow(2, r)).At(x)[z] == (Kept(5 * x + 2) != ChiBit(r, x, z))
  {
    hide Flip;
    match x
    case 0 =>
    case 1 =>
    case 2 =>
    case 3 =>
    case _ =>
  }

  lemma KhiBit3(r: Row, x: nat, z: nat)
    requires x < 5 && z < 64
    ensures KhiRow(3, FlipRow(3, r)).At(x)[z] == (Kept(5 * x + 3) != ChiBit(r, x, z))
  {
    hide Flip;
    match x
    case 0 =>
    case 1 =>
    case 2 =>
    case 3 =>
    case _ =>
  }

  lemma KhiBit4(r: Row, x: nat, z: nat)
    requires x < 5 && z < 64
    ensures KhiRow(4, FlipRow(4, r)).At(x)[z] == (Kept(5 * x + 4) != ChiBit(r, x, z))
  {
    hide Flip;
    match x
    case 0 =>
    case 1 =>
    case 2 =>
    case 3 =>
    case _ =>
  }
}
