/** The renamed-variable unrolling of Keccak-f[1600]: in round r the 25 variables play the
    parts listed in the table P r, so that the step pi moves no data. */
module KeccakF {
  import opened Words
  import opened Keccak

  const P0: seq<nat> := [0, 1, 2, 3, 4, 5, 6, 7, 8, 9, 10, 11, 12, 13, 14, 15, 16, 17, 18, 19, 20, 21, 22, 23, 24]
  const P1: seq<nat> := [0, 15, 5, 20, 10, 6, 21, 11, 1, 16, 12, 2, 17, 7, 22, 18, 8, 23, 13, 3, 24, 14, 4, 19, 9]
  const P2: seq<nat> := [0, 18, 6, 24, 12, 21, 14, 2, 15, 8, 17, 5, 23, 11, 4, 13, 1, 19, 7, 20, 9, 22, 10, 3, 16]
  const P3: seq<nat> := [0, 13, 21, 9, 17, 14, 22, 5, 18, 1, 23, 6, 19, 2, 10, 7, 15, 3, 11, 24, 16, 4, 12, 20, 8]
  const P4: seq<nat> := [0, 7, 14, 16, 23, 22, 4, 6, 13, 15, 19, 21, 3, 5, 12, 11, 18, 20, 2, 9, 8, 10, 17, 24, 1]
  const P5: seq<nat> := [0, 11, 22, 8, 19, 4, 10, 21, 7, 18, 3, 14, 20, 6, 17, 2, 13, 24, 5, 16, 1, 12, 23, 9, 15]
  const P6: seq<nat> := [0, 2, 4, 1, 3, 10, 12, 14, 11, 13, 20, 22, 24, 21, 23, 5, 7, 9, 6, 8, 15, 17, 19, 16, 18]
  const P7: seq<nat> := [0, 5, 10, 15, 20, 12, 17, 22, 2, 7, 24, 4, 9, 14, 19, 6, 11, 16, 21, 1, 18, 23, 3, 8, 13]
  const P8: seq<nat> := [0, 6, 12, 18, 24, 17, 23, 4, 5, 11, 9, 10, 16, 22, 3, 21, 2, 8, 14, 15, 13, 19, 20, 1, 7]
  const P9: seq<nat> := [0, 21, 17, 13, 9, 23, 19, 10, 6, 2, 16, 12, 8, 4, 20, 14, 5, 1, 22, 18, 7, 3, 24, 15, 11]
  const P10: seq<nat> := [0, 14, 23, 7, 16, 19, 3, 12, 21, 5, 8, 17, 1, 10, 24, 22, 6, 15, 4, 13, 11, 20, 9, 18, 2]
  const P11: seq<nat> := [0, 22, 19, 11, 8, 3, 20, 17, 14, 6, 1, 23, 15, 12, 9, 4, 21, 18, 10, 7, 2, 24, 16, 13, 5]
  const P12: seq<nat> := [0, 4, 3, 2, 1, 20, 24, 23, 22, 21, 15, 19, 18, 17, 16, 10, 14, 13, 12, 11, 5, 9, 8, 7, 6]
  const P13: seq<nat> := [0, 10, 20, 5, 15, 24, 9, 19, 4, 14, 18, 3, 13, 23, 8, 12, 22, 7, 17, 2, 6, 16, 1, 11, 21]
  const P14: seq<nat> := [0, 12, 24, 6, 18, 9, 16, 3, 10, 22, 13, 20, 7, 19, 1, 17, 4, 11, 23, 5, 21, 8, 15, 2, 14]
  const P15: seq<nat> := [0, 17, 9, 21, 13, 16, 8, 20, 12, 4, 7, 24, 11, 3, 15, 23, 10, 2, 19, 6, 14, 1, 18, 5, 22]
  const P16: seq<nat> := [0, 23, 16, 14, 7, 8, 1, 24, 17, 10, 11, 9, 2, 20, 18, 19, 12, 5, 3, 21, 22, 15, 13, 6, 4]
  const P17: seq<nat> := [0, 19, 8, 22, 11, 1, 15, 9, 23, 12, 2, 16, 5, 24, 13, 3, 17, 6, 20, 14, 4, 18, 7, 21, 10]
  const P18: seq<nat> := [0, 3, 1, 4, 2, 15, 18, 16, 19, 17, 5, 8, 6, 9, 7, 20, 23, 21, 24, 22, 10, 13, 11, 14, 12]
  const P19: seq<nat> := [0, 20, 15, 10, 5, 18, 13, 8, 3, 23, 6, 1, 21, 16, 11, 24, 19, 14, 9, 4, 12, 7, 2, 22, 17]
  const P20: seq<nat> := [0, 24, 18, 12, 6, 13, 7, 1, 20, 19, 21, 15, 14, 8, 2, 9, 3, 22, 16, 10, 17, 11, 5, 4, 23]
  const P21: seq<nat> := [0, 9, 13, 17, 21, 7, 11, 15, 24, 3, 14, 18, 22, 1, 5, 16, 20, 4, 8, 12, 23, 2, 6, 10, 19]
  const P22: seq<nat> := [0, 16, 7, 23, 14, 11, 2, 18, 9, 20, 22, 13, 4, 15, 6, 8, 24, 10, 1, 17, 19, 5, 21, 12, 3]
  const P23: seq<nat> := [0, 8, 11, 19, 22, 2, 5, 13, 16, 24, 4, 7, 10, 18, 21, 1, 9, 12, 15, 23, 3, 6, 14, 17, 20]

  /** `p` gives to each lane a variable of its own, and variable a00 to lane (0, 0). */
  ghost predicate IsNaming(p: seq<nat>) {
    && |p| == 25 && p[0] == 0
    && (forall i | 0 <= i < 25 :: p[i] < 25)
    && (forall i, j | 0 <= i < j < 25 :: p[i] != p[j])
  }

  /** `q` names as `p` does, after one pi. */
  ghost predicate IsNext(p: seq<nat>, q: seq<nat>) {
    |p| == |q| == 25 && forall i | 0 <= i < 25 :: q[i] == p[PiSource(i)]
  }

  /** A table with its entries in the order in which pi takes them. */
  predicate Picks(p: seq<nat>, q: seq<nat>)
    requires |p| == 25 && |q| == 25
  {
    && q[0] == p[0] && q[1] == p[15] && q[2] == p[5] && q[3] == p[20] && q[4] == p[10]
    && q[5] == p[6] && q[6] == p[21] && q[7] == p[11] && q[8] == p[1] && q[9] == p[16]
    && q[10] == p[12] && q[11] == p[2] && q[12] == p[17] && q[13] == p[7] && q[14] == p[22]
    && q[15] == p[18] && q[16] == p[8] && q[17] == p[23] && q[18] == p[13] && q[19] == p[3]
    && q[20] == p[24] && q[21] == p[14] && q[22] == p[4] && q[23] == p[19] && q[24] == p[9]
  }

  lemma PicksAt(p: seq<nat>, q: seq<nat>, i: nat)
    requires |p| == 25 && |q| == 25 && Picks(p, q) && i < 25
    ensures q[i] == p[PiSource(i)]
  {
    hide PiSource;
    PiTable(i);
  }

  /** The lanes in the order in which pi takes them. */
  function PiEntry(i: nat): nat
    requires i < 25
  {
    match i
    case 0 => 0 case 1 => 15 case 2 => 5 case 3 => 20 case 4 => 10
    case 5 => 6 case 6 => 21 case 7 => 11 case 8 => 1 case 9 => 16
    case 10 => 12 case 11 => 2 case 12 => 17 case 13 => 7 case 14 => 22
    case 15 => 18 case 16 => 8 case 17 => 23 case 18 => 13 case 19 => 3
    case 20 => 24 case 21 => 14 case 22 => 4 case 23 => 19 case _ => 9
  }

  lemma PiTable(i: nat)
    requires i < 25
    ensures PiSource(i) == PiEntry(i)
  {
    match i
    case 0 =>
    case 1 =>
    case 2 =>
    case 3 =>
    case 4 =>
    case 5 =>
    case 6 =>
    case 7 =>
    case 8 =>
    case 9 =>
    case 10 =>
    case 11 =>
    case 12 =>
    case 13 =>
    case 14 =>
    case 15 =>
    case 16 =>
    case 17 =>
    case 18 =>
    case 19 =>
    case 20 =>
    case 21 =>
    case 22 =>
    case 23 =>
    case _ =>
  }

  lemma PicksIsNext(p: seq<nat>, q: seq<nat>)
    requires |p| == 25 && |q| == 25 && Picks(p, q)
    ensures IsNext(p, q)
  {
    hide Picks, PiSource;
    forall i | 0 <= i < 25
      ensures q[i] == p[PiSource(i)]
    {
      PicksAt(p, q, i);
    }
  }

  // Each table is the one before, with pi applied to it; the 24th application leads back to P 0.

  lemma Next0() ensures IsNext(P0, P1) { hide IsNext; PicksIsNext(P0, P1); }
  lemma Next1() ensures IsNext(P1, P2) { hide IsNext; PicksIsNext(P1, P2); }
  lemma Next2() ensures IsNext(P2, P3) { hide IsNext; PicksIsNext(P2, P3); }
  lemma Next3() ensures IsNext(P3, P4) { hide IsNext; PicksIsNext(P3, P4); }
  lemma Next4() ensures IsNext(P4, P5) { hide IsNext; PicksIsNext(P4, P5); }
  lemma Next5() ensures IsNext(P5, P6) { hide IsNext; PicksIsNext(P5, P6); }
  lemma Next6() ensures IsNext(P6, P7) { hide IsNext; PicksIsNext(P6, P7); }
  lemma Next7() ensures IsNext(P7, P8) { hide IsNext; PicksIsNext(P7, P8); }
  lemma Next8() ensures IsNext(P8, P9) { hide IsNext; PicksIsNext(P8, P9); }
  lemma Next9() ensures IsNext(P9, P10) { hide IsNext; PicksIsNext(P9, P10); }
  lemma Next10() ensures IsNext(P10, P11) { hide IsNext; PicksIsNext(P10, P11); }
  lemma Next11() ensures IsNext(P11, P12) { hide IsNext; PicksIsNext(P11, P12); }
  lemma Next12() ensures IsNext(P12, P13) { hide IsNext; PicksIsNext(P12, P13); }
  lemma Next13() ensures IsNext(P13, P14) { hide IsNext; PicksIsNext(P13, P14); }
  lemma Next14() ensures IsNext(P14, P15) { hide IsNext; PicksIsNext(P14, P15); }
  lemma Next15() ensures IsNext(P15, P16) { hide IsNext; PicksIsNext(P15, P16); }
  lemma Next16() ensures IsNext(P16, P17) { hide IsNext; PicksIsNext(P16, P17); }
  lemma Next17() ensures IsNext(P17, P18) { hide IsNext; PicksIsNext(P17, P18); }
  lemma Next18() ensures IsNext(P18, P19) { hide IsNext; PicksIsNext(P18, P19); }
  lemma Next19() ensures IsNext(P19, P20) { hide IsNext; PicksIsNext(P19, P20); }
  lemma Next20() ensures IsNext(P20, P21) { hide IsNext; PicksIsNext(P20, P21); }
  lemma Next21() ensures IsNext(P21, P22) { hide IsNext; PicksIsNext(P21, P22); }
  lemma Next22() ensures IsNext(P22, P23) { hide IsNext; PicksIsNext(P22, P23); }
  lemma Next23() ensures IsNext(P23, P0) { hide IsNext; PicksIsNext(P23, P0); }

  lemma FirstEntries()
    ensures |P0| == 25 && forall i | 0 <= i < 25 :: P0[i] == i
  {
  }

  lemma FirstNaming()
    ensures IsNaming(P0) && forall i | 0 <= i < 25 :: P0[i] == i
  {
    hide P0;
    FirstEntries();
  }

  lemma PiInjective(i: nat, j: nat)
    requires i < 25 && j < 25 && PiSource(i) == PiSource(j)
    ensures i == j
  {
    hide PiSource;
    PiParts(i);
    PiParts(j);
    PiInjectiveRow(i / 5, i % 5, j % 5);
  }

  lemma PiParts(i: nat)
    requires i < 25
    ensures PiSource(i) % 5 == i / 5 && PiSource(i) / 5 == (i / 5 + 3 * (i % 5)) % 5
  {
    var y := (i / 5 + 3 * (i % 5)) % 5;
    assert PiSource(i) == 5 * y + i / 5;
  }

  lemma PiInjectiveRow(x: nat, y: nat, v: nat)
    requires y < 5 && v < 5 && (x + 3 * y) % 5 == (x + 3 * v) % 5
    ensures y == v
  {
    assert (3 * (y - v)) % 5 == 0;
  }

  /** Each table names every variable once. */
  lemma NamingNext(p: seq<nat>, q: seq<nat>)
    requires IsNaming(p) && IsNext(p, q)
    ensures IsNaming(q)
  {
    hide PiSource;
    PiTable(0);
    forall i, j | 0 <= i < j < 25
      ensures q[i] != q[j]
    {
      if PiSource(i) == PiSource(j) {
        PiInjective(i, j);
      }
    }
  }

  /** The lanes that the variables hold, under the naming `p`. */
  function View(v: Lanes, p: seq<nat>): (b: Lanes)
    requires IsNaming(p)
    ensures forall i | 0 <= i < 25 :: b[i] == v[p[i]]
  {
    assert forall i | 0 <= i < 25 :: |v[p[i]]| == 64;
    seq(25, i requires 0 <= i < 25 => v[p[i]])
  }

  /** To rename the variables is to apply pi to what they hold. */
  lemma ViewNext(v: Lanes, p: seq<nat>, q: seq<nat>)
    requires IsNaming(p) && IsNaming(q) && IsNext(p, q)
    ensures View(v, q) == SpecPi(View(v, p))
  {
    hide PiSource, View, SpecPi;
  }

  lemma ViewFirst(v: Lanes)
    ensures IsNaming(P0) && View(v, P0) == v
  {
    hide IsNaming;
    FirstNaming();
    hide *;
  }

  // ----- Rounds

  /** One round as the code computes it, on the lanes. */
  function CodeRound(b: Lanes, rc: Lane): Lanes {
    Iota(Khi(SpecPi(Rho(Theta(b)))), rc)
  }

  function CodeRounds(b: Lanes, rc: seq<Lane>, n: nat): Lanes
    requires n <= |rc|
  {
    if n == 0 then b else CodeRound(CodeRounds(b, rc, n - 1), rc[n - 1])
  }

  /** One round of FIPS 202; `Rho` is its step rho, by `RhoIsSpec`. */
  function SpecRound(b: Lanes, rc: Lane): Lanes {
    Iota(SpecChi(SpecPi(Rho(SpecTheta(b)))), rc)
  }

  function SpecRounds(b: Lanes, rc: seq<Lane>, n: nat): Lanes
    requires n <= |rc|
  {
    if n == 0 then b else SpecRound(SpecRounds(b, rc, n - 1), rc[n - 1])
  }

  lemma IotaOfComplement(b: Lanes, rc: Lane)
    ensures Iota(Complement(b, Kept), rc) == Complement(Iota(b, rc), Kept)
  {
  }

  lemma RoundOfComplement(b: Lanes, rc: Lane)
    ensures CodeRound(Complement(b, Kept), rc) == Complement(SpecRound(b, rc), Kept)
  {
    hide Theta, SpecTheta, Rho, SpecPi, Khi, SpecChi, Iota, Complement;
    ThetaIsSpec(Complement(b, Kept));
    ThetaOfComplement(b);
    RhoOfComplement(SpecTheta(b), KeptByTheta);
    PiOfComplement(Rho(SpecTheta(b)));
    KhiOfComplement(SpecPi(Rho(SpecTheta(b))));
    IotaOfComplement(SpecChi(SpecPi(Rho(SpecTheta(b)))), rc);
  }

  /** On a state with the kept lanes complemented, the rounds of the code are those of
      FIPS 202, and leave the same lanes complemented. */
  lemma {:induction false} RoundsOfComplement(b: Lanes, rc: seq<Lane>, n: nat)
    requires n <= |rc|
    ensures CodeRounds(Complement(b, Kept), rc, n) == Complement(SpecRounds(b, rc, n), Kept)
  {
    hide CodeRound, SpecRound, Complement;
    if n > 0 {
      RoundsOfComplement(b, rc, n - 1);
      RoundOfComplement(SpecRounds(b, rc, n - 1), rc[n - 1]);
    }
  }

  /** TH_ELT, on the variables that hold the columns `c` and `d`. */
  method ThElement(v: Lanes, p: seq<nat>, c: nat, d: nat) returns (t: Lane)
    requires IsNaming(p) && c < 5 && d < 5
    ensures t == ThOfColumns(View(v, p), c, d)
  {
    hide ThElt, View;
    t := ThElt(v[p[5 * c]], v[p[5 * c + 1]], v[p[5 * c + 2]], v[p[5 * c + 3]], v[p[5 * c + 4]],
               v[p[5 * d]], v[p[5 * d + 1]], v[p[5 * d + 2]], v[p[5 * d + 3]], v[p[5 * d + 4]]);
  }

  /** The words t0 to t4 of the THETA macro. */
  method ThetaWords(v: Lanes, p: seq<nat>) returns (t: seq<Lane>)
    requires IsNaming(p)
    ensures |t| == 5 && forall x | 0 <= x < 5 :: t[x] == ThetaWord(View(v, p), x)
  {
    hide ThOfColumns, View, IsNaming;
    var t0 := ThElement(v, p, 4, 1);
    var t1 := ThElement(v, p, 0, 2);
    var t2 := ThElement(v, p, 1, 3);
    var t3 := ThElement(v, p, 2, 4);
    var t4 := ThElement(v, p, 3, 0);
    t := [t0, t1, t2, t3, t4];
  }

  /** The THETA macro: the five words, and then each variable in its turn. */
  method ThetaMacro(v: Lanes, p: seq<nat>) returns (w: Lanes)
    requires IsNaming(p)
    ensures View(w, p) == Theta(View(v, p))
  {
    hide ThetaWord, View, Theta, Xor;
    ghost var b := View(v, p);
    var t := ThetaWords(v, p);
    w := v;
    for i := 0 to 25
      invariant forall j | 0 <= j < i :: w[p[j]] == Xor(b[j], ThetaWord(b, j / 5))
      invariant forall j | i <= j < 25 :: w[p[j]] == b[j]
    {
      w := w[p[i] := Xor(w[p[i]], t[i / 5])];
    }
  }

  /** The RHO macro: each variable is rotated in its turn, but not the first. */
  method RhoMacro(v: Lanes, p: seq<nat>) returns (w: Lanes)
    requires IsNaming(p)
    ensures View(w, p) == Rho(View(v, p))
  {
    hide Rotl, RhoCount, View, Rho;
    ghost var b := View(v, p);
    RhoZero(b);
    w := v;
    for i := 1 to 25
      invariant forall j | 0 <= j < i :: w[p[j]] == Rho(b)[j]
      invariant forall j | i <= j < 25 :: w[p[j]] == b[j]
    {
      RhoCountBelow(i);
      w := w[p[i] := Rotl(w[p[i]], RhoCount(i))];
    }
  }

  /** The lines of the KHI macro for row `y`: the new lanes in c0 to c4, and then the moves. */
  method KhiRowMacro(v: Lanes, p: seq<nat>, y: nat) returns (w: Lanes)
    requires IsNaming(p) && y < 5
    ensures forall i | 0 <= i < 25 ::
              View(w, p)[i] == if i % 5 == y then KhiRow(y, RowOf(View(v, p), y)).At(i / 5) else View(v, p)[i]
  {
    hide KhiRow, View;
    var c := KhiRow(y, Row(v[p[y]], v[p[5 + y]], v[p[10 + y]], v[p[15 + y]], v[p[20 + y]]));
    w := v;
    w := w[p[y] := c.r0];
    w := w[p[5 + y] := c.r1];
    w := w[p[10 + y] := c.r2];
    w := w[p[15 + y] := c.r3];
    w := w[p[20 + y] := c.r4];
    forall i | 0 <= i < 25
      ensures w[p[i]] == if i % 5 == y then c.At(i / 5) else v[p[i]]
    {
      if i % 5 == y {
        assert i == 5 * (i / 5) + y;
      }
    }
  }

  /** The KHI macro: row by row. */
  method KhiMacro(v: Lanes, p: seq<nat>) returns (w: Lanes)
    requires IsNaming(p)
    ensures View(w, p) == Khi(View(v, p))
  {
    hide KhiRow, View, Khi, Row.At, RowOf, IsNaming;
    ghost var b := View(v, p);
    w := v;
    for y := 0 to 5
      invariant HalfDone(View(w, p), b, y)
    {
      ghost var before := View(w, p);
      SameRow(before, b, y);
      w := KhiRowMacro(w, p, y);
      RowDone(before, View(w, p), b, y);
    }
  }

  /** The first rows of `b` are through. */
  ghost predicate HalfDone(c: Lanes, b: Lanes, y: nat) {
    forall i | 0 <= i < 25 :: c[i] == if i % 5 < y then Khi(b)[i] else b[i]
  }

  lemma SameRow(c: Lanes, b: Lanes, y: nat)
    requires y < 5 && HalfDone(c, b, y)
    ensures RowOf(c, y) == RowOf(b, y)
  {
    hide Khi, RowOf;
    assert c[y] == b[y] && c[5 + y] == b[5 + y] && c[10 + y] == b[10 + y] && c[15 + y] == b[15 + y] && c[20 + y] == b[20 + y] by {
      assert y % 5 == y && (5 + y) % 5 == y && (10 + y) % 5 == y && (15 + y) % 5 == y && (20 + y) % 5 == y;
    }
    hide HalfDone;
    RowsEqual(c, b, y);
  }

  lemma RowsEqual(c: Lanes, b: Lanes, y: nat)
    requires y < 5
    requires c[y] == b[y] && c[5 + y] == b[5 + y] && c[10 + y] == b[10 + y] && c[15 + y] == b[15 + y] && c[20 + y] == b[20 + y]
    ensures RowOf(c, y) == RowOf(b, y)
  {
  }

  lemma RowDone(c: Lanes, d: Lanes, b: Lanes, y: nat)
    requires y < 5 && HalfDone(c, b, y)
    requires forall i | 0 <= i < 25 :: d[i] == if i % 5 == y then KhiRow(y, RowOf(b, y)).At(i / 5) else c[i]
    ensures HalfDone(d, b, y + 1)
  {
    hide Khi, KhiRow, Row.At, RowOf;
  }

  /** The variables hold the first `n` rounds of the permutation of `b`, under the naming `p`. */
  ghost predicate Done(v: Lanes, p: seq<nat>, b: Lanes, rc: seq<Lane>, n: nat) {
    n <= |rc| && IsNaming(p) && View(v, p) == CodeRounds(b, rc, n)
  }

  /** KF_ELT: one unrolled round, from the naming `p` to the naming `q`. */
  method KfElt(v: Lanes, p: seq<nat>, q: seq<nat>, k: Lane) returns (w: Lanes)
    requires IsNaming(p) && IsNext(p, q)
    ensures IsNaming(q) && View(w, q) == CodeRound(View(v, p), k)
  {
    hide IsNaming, IsNext, Theta, Rho, SpecPi, Khi, View, Iota;
    NamingNext(p, q);
    w := ThetaMacro(v, p);
    w := RhoMacro(w, p);
    ViewNext(w, p, q);
    w := KhiMacro(w, q);
    IotaFirst(w, q, k);
    w := w[0 := Xor(w[0], k)];
  }

  lemma IotaFirst(v: Lanes, p: seq<nat>, k: Lane)
    requires IsNaming(p)
    ensures View(v[0 := Xor(v[0], k)], p) == Iota(View(v, p), k)
  {
    hide View;
  }

  method Round(v: Lanes, p: seq<nat>, q: seq<nat>, rc: seq<Lane>, j: nat, ghost b: Lanes) returns (w: Lanes)
    requires j < |rc| && Done(v, p, b, rc, j) && IsNext(p, q)
    ensures Done(w, q, b, rc, j + 1)
  {
    hide CodeRound, View, IsNaming, IsNext;
    w := KfElt(v, p, q, rc[j]);
  }

  lemma StartDone(b: Lanes, rc: seq<Lane>)
    ensures Done(b, P0, b, rc, 0)
  {
    hide View, IsNaming;
    ViewFirst(b);
  }

  lemma EndDone(v: Lanes, b: Lanes, rc: seq<Lane>)
    requires |rc| == 24 && Done(v, P0, b, rc, 24)
    ensures v == CodeRounds(b, rc, |rc|)
  {
    hide View, IsNaming, CodeRounds;
    ViewFirst(v);
  }

  ghost predicate Moved(v: Lanes, w: Lanes, p: seq<nat>) {
    IsNaming(p) ==> w == View(v, p)
  }

  /** Moving every variable to the place that `p` gives it ends a run of rounds under `p`. */
  lemma MovedDone(v: Lanes, w: Lanes, p: seq<nat>, b: Lanes, rc: seq<Lane>, n: nat)
    requires Done(v, p, b, rc, n) && Moved(v, w, p)
    ensures Done(w, P0, b, rc, n)
  {
    hide View, IsNaming, CodeRounds;
    ViewFirst(w);
  }

  // ----- The moves back to P 0

  method P1ToP0(v: Lanes) returns (w: Lanes)
    ensures Moved(v, w, P1)
  {
    var a01, a02, a03, a04, a10, a11, a12, a13, a14, a20, a21, a22, a23, a24, a30, a31, a32, a33, a34, a40, a41, a42, a43, a44 :=
      v[1], v[2], v[3], v[4], v[5], v[6], v[7], v[8], v[9], v[10], v[11], v[12], v[13], v[14], v[15], v[16], v[17], v[18], v[19], v[20], v[21], v[22], v[23], v[24];
    var t := a01; a01 := a30; a30 := a33; a33 := a23; a23 := a12; a12 := a21;
    a21 := a02; a02 := a10; a10 := a11; a11 := a41; a41 := a24; a24 := a42;
    a42 := a04; a04 := a20; a20 := a22; a22 := a32; a32 := a43; a43 := a34;
    a34 := a03; a03 := a40; a40 := a44; a44 := a14; a14 := a31; a31 := a13;
    a13 := t;
    w := [v[0], a01, a02, a03, a04, a10, a11, a12, a13, a14, a20, a21, a22, a23, a24, a30, a31, a32, a33, a34, a40, a41, a42, a43, a44];
    assert Placed(v, w, P1);
  }

  method P2ToP0(v: Lanes) returns (w: Lanes)
    ensures Moved(v, w, P2)
  {
    var a01, a02, a03, a04, a10, a11, a12, a13, a14, a20, a21, a22, a23, a24, a30, a31, a32, a33, a34, a40, a41, a42, a43, a44 :=
      v[1], v[2], v[3], v[4], v[5], v[6], v[7], v[8], v[9], v[10], v[11], v[12], v[13], v[14], v[15], v[16], v[17], v[18], v[19], v[20], v[21], v[22], v[23], v[24];
    var t := a01; a01 := a33; a33 := a12; a12 := a02; a02 := a11; a11 := a24;
    a24 := a04; a04 := a22; a22 := a43; a43 := a03; a03 := a44; a44 := a31;
    a31 := t; t := a10; a10 := a41; a41 := a42; a42 := a20; a20 := a32;
    a32 := a34; a34 := a40; a40 := a14; a14 := a13; a13 := a30; a30 := a23;
    a23 := a21; a21 := t;
    w := [v[0], a01, a02, a03, a04, a10, a11, a12, a13, a14, a20, a21, a22, a23, a24, a30, a31, a32, a33, a34, a40, a41, a42, a43, a44];
    assert Placed(v, w, P2);
  }

  method P4ToP0(v: Lanes) returns (w: Lanes)
    ensures Moved(v, w, P4)
  {
    var a01, a02, a03, a04, a10, a11, a12, a13, a14, a20, a21, a22, a23, a24, a30, a31, a32, a33, a34, a40, a41, a42, a43, a44 :=
      v[1], v[2], v[3], v[4], v[5], v[6], v[7], v[8], v[9], v[10], v[11], v[12], v[13], v[14], v[15], v[16], v[17], v[18], v[19], v[20], v[21], v[22], v[23], v[24];
    var t := a01; a01 := a12; a12 := a11; a11 := a04; a04 := a43; a43 := a44;
    a44 := t; t := a02; a02 := a24; a24 := a22; a22 := a03; a03 := a31;
    a31 := a33; a33 := t; t := a10; a10 := a42; a42 := a32; a32 := a40;
    a40 := a13; a13 := a23; a23 := t; t := a14; a14 := a30; a30 := a21;
    a21 := a41; a41 := a20; a20 := a34; a34 := t;
    w := [v[0], a01, a02, a03, a04, a10, a11, a12, a13, a14, a20, a21, a22, a23, a24, a30, a31, a32, a33, a34, a40, a41, a42, a43, a44];
    assert Placed(v, w, P4);
  }

  method P6ToP0(v: Lanes) returns (w: Lanes)
    ensures Moved(v, w, P6)
  {
    var a01, a02, a03, a04, a10, a11, a12, a13, a14, a20, a21, a22, a23, a24, a30, a31, a32, a33, a34, a40, a41, a42, a43, a44 :=
      v[1], v[2], v[3], v[4], v[5], v[6], v[7], v[8], v[9], v[10], v[11], v[12], v[13], v[14], v[15], v[16], v[17], v[18], v[19], v[20], v[21], v[22], v[23], v[24];
    var t := a01; a01 := a02; a02 := a04; a04 := a03; a03 := t; t := a10;
    a10 := a20; a20 := a40; a40 := a30; a30 := t; t := a11; a11 := a22;
    a22 := a44; a44 := a33; a33 := t; t := a12; a12 := a24; a24 := a43;
    a43 := a31; a31 := t; t := a13; a13 := a21; a21 := a42; a42 := a34;
    a34 := t; t := a14; a14 := a23; a23 := a41; a41 := a32; a32 := t;
    w := [v[0], a01, a02, a03, a04, a10, a11, a12, a13, a14, a20, a21, a22, a23, a24, a30, a31, a32, a33, a34, a40, a41, a42, a43, a44];
    assert Placed(v, w, P6);
  }

  method P8ToP0(v: Lanes) returns (w: Lanes)
    ensures Moved(v, w, P8)
  {
    var a01, a02, a03, a04, a10, a11, a12, a13, a14, a20, a21, a22, a23, a24, a30, a31, a32, a33, a34, a40, a41, a42, a43, a44 :=
      v[1], v[2], v[3], v[4], v[5], v[6], v[7], v[8], v[9], v[10], v[11], v[12], v[13], v[14], v[15], v[16], v[17], v[18], v[19], v[20], v[21], v[22], v[23], v[24];
    var t := a01; a01 := a11; a11 := a43; a43 := t; t := a02; a02 := a22;
    a22 := a31; a31 := t; t := a03; a03 := a33; a33 := a24; a24 := t;
    t := a04; a04 := a44; a44 := a12; a12 := t; t := a10; a10 := a32;
    a32 := a13; a13 := t; t := a14; a14 := a21; a21 := a20; a20 := t;
    t := a23; a23 := a42; a42 := a40; a40 := t; t := a30; a30 := a41;
    a41 := a34; a34 := t;
    w := [v[0], a01, a02, a03, a04, a10, a11, a12, a13, a14, a20, a21, a22, a23, a24, a30, a31, a32, a33, a34, a40, a41, a42, a43, a44];
    assert Placed(v, w, P8);
  }

  method P12ToP0(v: Lanes) returns (w: Lanes)
    ensures Moved(v, w, P12)
  {
    var a01, a02, a03, a04, a10, a11, a12, a13, a14, a20, a21, a22, a23, a24, a30, a31, a32, a33, a34, a40, a41, a42, a43, a44 :=
      v[1], v[2], v[3], v[4], v[5], v[6], v[7], v[8], v[9], v[10], v[11], v[12], v[13], v[14], v[15], v[16], v[17], v[18], v[19], v[20], v[21], v[22], v[23], v[24];
    var t := a01; a01 := a04; a04 := t; t := a02; a02 := a03; a03 := t;
    t := a10; a10 := a40; a40 := t; t := a11; a11 := a44; a44 := t;
    t := a12; a12 := a43; a43 := t; t := a13; a13 := a42; a42 := t;
    t := a14; a14 := a41; a41 := t; t := a20; a20 := a30; a30 := t;
    t := a21; a21 := a34; a34 := t; t := a22; a22 := a33; a33 := t;
    t := a23; a23 := a32; a32 := t; t := a24; a24 := a31; a31 := t;
    w := [v[0], a01, a02, a03, a04, a10, a11, a12, a13, a14, a20, a21, a22, a23, a24, a30, a31, a32, a33, a34, a40, a41, a42, a43, a44];
    assert Placed(v, w, P12);
  }

  predicate Placed(v: Lanes, w: Lanes, p: seq<nat>)
    requires |p| == 25 && forall i | 0 <= i < 25 :: p[i] < 25
  {
    && w[0] == v[p[0]] && w[1] == v[p[1]] && w[2] == v[p[2]] && w[3] == v[p[3]] && w[4] == v[p[4]]
    && w[5] == v[p[5]] && w[6] == v[p[6]] && w[7] == v[p[7]] && w[8] == v[p[8]] && w[9] == v[p[9]]
    && w[10] == v[p[10]] && w[11] == v[p[11]] && w[12] == v[p[12]] && w[13] == v[p[13]] && w[14] == v[p[14]]
    && w[15] == v[p[15]] && w[16] == v[p[16]] && w[17] == v[p[17]] && w[18] == v[p[18]] && w[19] == v[p[19]]
    && w[20] == v[p[20]] && w[21] == v[p[21]] && w[22] == v[p[22]] && w[23] == v[p[23]] && w[24] == v[p[24]]
  }

  method KeccakF1(b: Lanes, rc: seq<Lane>) returns (v: Lanes)
    requires |rc| == 24
    ensures v == CodeRounds(b, rc, |rc|)
  {
    hide *;
    Next0();
    StartDone(b, rc);
    v := b;
    var j := 0;
    while j < 24
      invariant 0 <= j <= 24 && j % 1 == 0
      invariant Done(v, P0, b, rc, j)
    {
      v := Round(v, P0, P1, rc, j + 0, b);
      var w := P1ToP0(v);
      MovedDone(v, w, P1, b, rc, j + 1);
      v := w;
      j := j + 1;
    }
    EndDone(v, b, rc);
  }

  method KeccakF2(b: Lanes, rc: seq<Lane>) returns (v: Lanes)
    requires |rc| == 24
    ensures v == CodeRounds(b, rc, |rc|)
  {
    hide *;
    Next0();
    Next1();
    StartDone(b, rc);
    v := b;
    var j := 0;
    while j < 24
      invariant 0 <= j <= 24 && j % 2 == 0
      invariant Done(v, P0, b, rc, j)
    {
      v := Round(v, P0, P1, rc, j + 0, b);
      v := Round(v, P1, P2, rc, j + 1, b);
      var w := P2ToP0(v);
      MovedDone(v, w, P2, b, rc, j + 2);
      v := w;
      j := j + 2;
    }
    EndDone(v, b, rc);
  }

  method KeccakF4(b: Lanes, rc: seq<Lane>) returns (v: Lanes)
    requires |rc| == 24
    ensures v == CodeRounds(b, rc, |rc|)
  {
    hide *;
    Next0();
    Next1();
    Next2();
    Next3();
    StartDone(b, rc);
    v := b;
    var j := 0;
    while j < 24
      invariant 0 <= j <= 24 && j % 4 == 0
      invariant Done(v, P0, b, rc, j)
    {
      v := Round(v, P0, P1, rc, j + 0, b);
      v := Round(v, P1, P2, rc, j + 1, b);
      v := Round(v, P2, P3, rc, j + 2, b);
      v := Round(v, P3, P4, rc, j + 3, b);
      var w := P4ToP0(v);
      MovedDone(v, w, P4, b, rc, j + 4);
      v := w;
      j := j + 4;
    }
    EndDone(v, b, rc);
  }

  method KeccakF6(b: Lanes, rc: seq<Lane>) returns (v: Lanes)
    requires |rc| == 24
    ensures v == CodeRounds(b, rc, |rc|)
  {
    hide *;
    Next0();
    Next1();
    Next2();
    Next3();
    Next4();
    Next5();
    StartDone(b, rc);
    v := b;
    var j := 0;
    while j < 24
      invariant 0 <= j <= 24 && j % 6 == 0
      invariant Done(v, P0, b, rc, j)
    {
      v := Round(v, P0, P1, rc, j + 0, b);
      v := Round(v, P1, P2, rc, j + 1, b);
      v := Round(v, P2, P3, rc, j + 2, b);
      v := Round(v, P3, P4, rc, j + 3, b);
      v := Round(v, P4, P5, rc, j + 4, b);
      v := Round(v, P5, P6, rc, j + 5, b);
      var w := P6ToP0(v);
      MovedDone(v, w, P6, b, rc, j + 6);
      v := w;
      j := j + 6;
    }
    EndDone(v, b, rc);
  }

  method KeccakF8(b: Lanes, rc: seq<Lane>) returns (v: Lanes)
    requires |rc| == 24
    ensures v == CodeRounds(b, rc, |rc|)
  {
    hide *;
    Next0();
    Next1();
    Next2();
    Next3();
    Next4();
    Next5();
    Next6();
    Next7();
    StartDone(b, rc);
    v := b;
    var j := 0;
    while j < 24
      invariant 0 <= j <= 24 && j % 8 == 0
      invariant Done(v, P0, b, rc, j)
    {
      v := Round(v, P0, P1, rc, j + 0, b);
      v := Round(v, P1, P2, rc, j + 1, b);
      v := Round(v, P2, P3, rc, j + 2, b);
      v := Round(v, P3, P4, rc, j + 3, b);
      v := Round(v, P4, P5, rc, j + 4, b);
      v := Round(v, P5, P6, rc, j + 5, b);
      v := Round(v, P6, P7, rc, j + 6, b);
      v := Round(v, P7, P8, rc, j + 7, b);
      var w := P8ToP0(v);
      MovedDone(v, w, P8, b, rc, j + 8);
      v := w;
      j := j + 8;
    }
    EndDone(v, b, rc);
  }

  method KeccakF12(b: Lanes, rc: seq<Lane>) returns (v: Lanes)
    requires |rc| == 24
    ensures v == CodeRounds(b, rc, |rc|)
  {
    hide *;
    Next0();
    Next1();
    Next2();
    Next3();
    Next4();
    Next5();
    Next6();
    Next7();
    Next8();
    Next9();
    Next10();
    Next11();
    StartDone(b, rc);
    v := b;
    var j := 0;
    while j < 24
      invariant 0 <= j <= 24 && j % 12 == 0
      invariant Done(v, P0, b, rc, j)
    {
      v := Round(v, P0, P1, rc, j + 0, b);
      v := Round(v, P1, P2, rc, j + 1, b);
      v := Round(v, P2, P3, rc, j + 2, b);
      v := Round(v, P3, P4, rc, j + 3, b);
      v := Round(v, P4, P5, rc, j + 4, b);
      v := Round(v, P5, P6, rc, j + 5, b);
      v := Round(v, P6, P7, rc, j + 6, b);
      v := Round(v, P7, P8, rc, j + 7, b);
      v := Round(v, P8, P9, rc, j + 8, b);
      v := Round(v, P9, P10, rc, j + 9, b);
      v := Round(v, P10, P11, rc, j + 10, b);
      v := Round(v, P11, P12, rc, j + 11, b);
      var w := P12ToP0(v);
      MovedDone(v, w, P12, b, rc, j + 12);
      v := w;
      j := j + 12;
    }
    EndDone(v, b, rc);
  }

  method KeccakF0(b: Lanes, rc: seq<Lane>) returns (v: Lanes)
    requires |rc| == 24
    ensures v == CodeRounds(b, rc, |rc|)
  {
    hide *;
    Next0();
    Next1();
    Next2();
    Next3();
    Next4();
    Next5();
    Next6();
    Next7();
    Next8();
    Next9();
    Next10();
    Next11();
    Next12();
    Next13();
    Next14();
    Next15();
    Next16();
    Next17();
    Next18();
    Next19();
    Next20();
    Next21();
    Next22();
    Next23();
    StartDone(b, rc);
    v := Round(b, P0, P1, rc, 0, b);
    v := Round(v, P1, P2, rc, 1, b);
    v := Round(v, P2, P3, rc, 2, b);
    v := Round(v, P3, P4, rc, 3, b);
    v := Round(v, P4, P5, rc, 4, b);
    v := Round(v, P5, P6, rc, 5, b);
    v := Round(v, P6, P7, rc, 6, b);
    v := Round(v, P7, P8, rc, 7, b);
    v := Round(v, P8, P9, rc, 8, b);
    v := Round(v, P9, P10, rc, 9, b);
    v := Round(v, P10, P11, rc, 10, b);
    v := Round(v, P11, P12, rc, 11, b);
    v := Round(v, P12, P13, rc, 12, b);
    v := Round(v, P13, P14, rc, 13, b);
    v := Round(v, P14, P15, rc, 14, b);
    v := Round(v, P15, P16, rc, 15, b);
    v := Round(v, P16, P17, rc, 16, b);
    v := Round(v, P17, P18, rc, 17, b);
    v := Round(v, P18, P19, rc, 18, b);
    v := Round(v, P19, P20, rc, 19, b);
    v := Round(v, P20, P21, rc, 20, b);
    v := Round(v, P21, P22, rc, 21, b);
    v := Round(v, P22, P23, rc, 22, b);
    v := Round(v, P23, P0, rc, 23, b);
    EndDone(v, b, rc);
  }
}
