/** Big numbers in the MPI format: conversions from and to machine words, 256-bit numbers and
    the compact form of difficulty targets. */
module Bignum {
  import opened Basics
  import opened Radix
  import Modular

  type Octets = s: seq<nat> | forall i | 0 <= i < |s| :: s[i] < 256

  // ----- The MPI format: four bytes of length, and the magnitude with a sign bit on top

  function Abs(v: int): nat { if v < 0 then -v else v }

  /** The bytes of a number: its magnitude, with a byte more when the top bit is taken. */
  function Body(v: int): (b: Octets)
    ensures v == 0 <==> b == []
  {
    if v == 0 then [] else
      var m := Digits(256, Abs(v));
      if m[0] >= 128 then [if v < 0 then 128 else 0] + m
      else if v < 0 then m[0 := m[0] + 128]
      else m
  }

  function Magnitude(b: Octets): nat {
    if b == [] then 0 else Num(256, b[0 := b[0] % 128])
  }

  function FromBody(b: Octets): int {
    var m: int := Magnitude(b);
    if b != [] && b[0] >= 128 then -m else m
  }

  lemma BodyMagnitude(v: int)
    ensures Magnitude(Body(v)) == Abs(v) && (v != 0 ==> (Body(v)[0] >= 128 <==> v < 0))
  {
    hide Num, Digits;
    if v != 0 {
      var m := Digits(256, Abs(v));
      NumDigits(256, Abs(v));
      if m[0] >= 128 {
        assert Body(v)[0 := Body(v)[0] % 128] == Zeros(1) + m;
        LeadingZeros(256, 1, m);
      } else {
        assert Body(v)[0 := Body(v)[0] % 128] == m;
      }
    }
  }

  /** What is written can be read back. */
  lemma BodyRoundTrip(v: int)
    ensures FromBody(Body(v)) == v
  {
    hide Body, Magnitude;
    BodyMagnitude(v);
    assert Magnitude([]) == 0 by {
      NoMagnitude();
    }
  }

  lemma NoMagnitude()
    ensures Magnitude([]) == 0
  {
  }

  function Header(n: nat): (r: Octets)
    ensures |r| == 4
  {
    [n / 0x100_0000 % 256, n / 0x1_0000 % 256, n / 0x100 % 256, n % 256]
  }

  const WORD: nat := 0x1_0000_0000

  /** A size, converted to a signed 32-bit number. */
  function Signed(n: nat): (i: int)
    ensures i <= n
    ensures n < 0x8000_0000 ==> i == n
    ensures -0x8000_0000 <= i < 0x8000_0000 && (n - i) % WORD == 0
  {
    var m := n % WORD;
    if m < 0x8000_0000 then m else m - WORD
  }

  /** BN_mpi2bn on as many bytes as the converted size says; it refuses a size that is not that in the
      first four bytes. */
  function Mpi2Bn(buf: Octets): Option<int> {
    var n := Signed(|buf|);
    if n < 4 || Num(256, buf[..4]) != n - 4 then None else Some(FromBody(buf[4..n]))
  }

  /** BN_bn2mpi. */
  function Bn2Mpi(v: int): Octets {
    Header(|Body(v)|) + Body(v)
  }

  lemma HeaderIs(n: nat)
    requires n < 0x1_0000_0000
    ensures Num(256, Header(n)) == n
  {
    hide Num;
    var a, b, c, d := n / 0x100_0000 % 256, n / 0x1_0000 % 256, n / 0x100 % 256, n % 256;
    HeaderSum(n);
    NumNone(256);
    NumStep(256, [], a);
    NumStep(256, [a], b);
    NumStep(256, [a, b], c);
    NumStep(256, [a, b, c], d);
    assert [] + [a] == [a] && [a] + [b] == [a, b] && [a, b] + [c] == [a, b, c] && [a, b, c] + [d] == [a, b, c, d];
  }

  lemma HeaderSum(n: nat)
    requires n < 0x1_0000_0000
    ensures ((n / 0x100_0000 % 256 * 256 + n / 0x1_0000 % 256) * 256 + n / 0x100 % 256) * 256 + n % 256 == n
  {
  }

  lemma ShortHeader(n: nat)
    requires n < 256
    ensures Header(n) == [0, 0, 0, n]
  {
  }

  lemma HeaderWraps(n: nat)
    ensures Header(n) == Header(n % WORD)
  {
    ByteWraps(n, 0x100_0000, 1);
    ByteWraps(n, 0x1_0000, 0x100);
    ByteWraps(n, 0x100, 0x1_0000);
    ByteWraps(n, 1, 0x100_0000);
  }

  lemma ByteWraps(n: nat, d: nat, k: nat)
    requires d > 0 && d * (256 * k) == WORD
    ensures n / d % 256 == n % WORD / d % 256
  {
    var q, m := n / WORD, n % WORD;
    assert n == q * WORD + m;
    assert q * (d * (256 * k)) == (q * k * 256) * d;
    Modular.AddMultiple(m, d, q * k * 256);
    Modular.AddMultiple(m / d, 256, q * k);
  }

  /** What BN_mpi2bn makes of a body behind a header with its size, both sizes wrapping around. */
  lemma ReadAny(body: Octets)
    ensures var m := |body| % WORD;
            Mpi2Bn(Header(|body|) + body) == if m + 4 < 0x8000_0000 then Some(FromBody(body[..m])) else None
  {
    hide Num, FromBody, Header;
    var m := |body| % WORD;
    var buf, n := Header(|body|) + body, Signed(|body| + 4);
    HeaderWraps(|body|);
    HeaderIs(m);
    WrappedSize(|body|);
    assert |buf| == |body| + 4 && buf[..4] == Header(|body|);
    if m + 4 < 0x8000_0000 {
      assert n == m + 4 && buf[4..n] == body[..m];
    }
  }

  lemma WrappedSize(l: nat)
    ensures var m := l % WORD;
            if m + 4 < 0x8000_0000 then Signed(l + 4) == m + 4 else Signed(l + 4) < 4
  {
  }

  lemma ReadBack(body: Octets)
    requires |body| + 4 < 0x8000_0000
    ensures Mpi2Bn(Header(|body|) + body) == Some(FromBody(body))
  {
    hide FromBody, Header, Mpi2Bn;
    ReadAny(body);
    assert body[..|body|] == body;
  }

  /** The number whose bytes in memory are `s`, the least significant one first. */
  function Little(s: Octets): nat {
    Num(256, Reverse(s))
  }

  // ----- The compact form

  function At(b: Octets, i: nat): (o: nat)
    ensures o < 256
  {
    if i < |b| then b[i] else 0
  }

  /** The first three bytes, as a number. */
  function Top(b: Octets): (t: nat)
    ensures t < 0x100_0000
  {
    At(b, 0) * 0x1_0000 + At(b, 1) * 0x100 + At(b, 2)
  }

  function Compact(v: int): (c: nat)
    ensures c < 0x1_0000_0000
  {
    |Body(v)| % 256 * 0x100_0000 + Top(Body(v))
  }

  /** The bytes that a compact number stands for. */
  function Expanded(nCompact: nat): Octets {
    seq(nCompact / 0x100_0000, i =>
      if i == 0 then nCompact / 0x1_0000 % 256 else if i == 1 then nCompact / 0x100 % 256 else if i == 2 then nCompact % 256 else 0)
  }

  // ----- Bytes written from the top, leading zeros left out

  /** `body` are the bytes of `top`, with the sign, or nothing while only zeros came. */
  predicate Written(body: Octets, fLeadingZeroes: bool, fNegative: bool, top: nat) {
    if fLeadingZeroes then body == [] && top == 0
    else body != [] && top > 0 && (body[0] >= 128 <==> fNegative) && Magnitude(body) == top
  }

  /** What one more byte makes of it. */
  lemma WrittenNext(body: Octets, fLeadingZeroes: bool, fNegative: bool, top: nat, c: nat)
    requires c < 256 && Written(body, fLeadingZeroes, fNegative, top)
    ensures !fLeadingZeroes ==> Written(body + [c], false, fNegative, top * 256 + c)
    ensures fLeadingZeroes && c == 0 ==> Written(body, true, fNegative, top * 256 + c)
    ensures fLeadingZeroes && c >= 128 ==> Written(body + [if fNegative then 128 else 0] + [c], false, fNegative, top * 256 + c)
    ensures fLeadingZeroes && 0 < c < 128 ==> Written(body + [if fNegative then c + 128 else c], false, fNegative, top * 256 + c)
  {
    hide Num;
    if !fLeadingZeroes {
      var clean := body[0 := body[0] % 128];
      assert (body + [c])[0 := body[0] % 128] == clean + [c];
      NumStep(256, clean, c);
    } else if c >= 128 {
      var sign := if fNegative then 128 else 0;
      assert [sign, c][0 := sign % 128] == [0] + [c];
      NumOne(0);
      NumStep(256, [0], c);
      assert body + [sign] + [c] == [sign, c];
    } else if c > 0 {
      var b := if fNegative then c + 128 else c;
      assert [b][0 := b % 128] == [c];
      NumOne(c);
      assert body + [b] == [b];
    }
  }

  lemma NoneWritten(fNegative: bool)
    ensures Written([], true, fNegative, 0)
  {
  }

  lemma WrittenIs(body: Octets, fLeadingZeroes: bool, fNegative: bool, top: nat)
    requires Written(body, fLeadingZeroes, fNegative, top)
    ensures FromBody(body) == if fNegative then -(top as int) else top
  {
    hide Num;
  }

  // ----- The bytes of a 64-bit word, from the top

  lemma WordPowers()
    ensures Pow(256, 7) == 0x100_0000_0000_0000 && Pow(256, 8) == 0x1_0000_0000_0000_0000 && Pow(256, 0) == 1
  {
  }

  /** After `i` shifts of the word `n` that was `total`: `top` are the bytes shifted out. */
  predicate Shifted(total: nat, n: nat, top: nat, rest: nat, i: nat) {
    i <= 8 && total == top * Pow(256, 8 - i) + rest && rest < Pow(256, 8 - i) && n == rest * Pow(256, i)
  }

  lemma StartShifted(n: nat)
    requires n < 0x1_0000_0000_0000_0000
    ensures Shifted(n, n, 0, n, 0)
  {
    WordPowers();
  }

  lemma ShiftArithmetic(n: nat, rest: nat, p: nat, q: nat)
    requires p > 0 && q > 0 && rest < p * 256 && n == rest * q
    ensures p * q > 0 && p * q * 256 > 0
    ensures n / (p * q) == rest / p < 256
    ensures n * 256 % (p * q * 256) == rest % p * (q * 256)
  {
    Modular.MulAtLeast(p, q);
    var c, r := rest / p, rest % p;
    assert rest == c * p + r;
    if c >= 256 {
      Modular.MulAtMost(256, c, p);
      assert false;
    }
    ShiftRest(n, c, r, p, q);
  }

  lemma ShiftRest(n: nat, c: nat, r: nat, p: nat, q: nat)
    requires p * q > 0 && q > 0 && r < p && n == (c * p + r) * q
    ensures n / (p * q) == c
    ensures n * 256 % (p * q * 256) == r * (q * 256)
  {
    var w, y := p * q, r * q;
    assert n == c * w + y by {
      Distribute(c, p, r, q);
    }
    assert y < w by {
      Modular.MulAtMost(r + 1, p, q);
      assert (r + 1) * q == r * q + q;
    }
    TopByte(n, c, y, w);
    assert r * (q * 256) == y * 256;
  }

  lemma Distribute(c: nat, p: nat, r: nat, q: nat)
    ensures (c * p + r) * q == c * (p * q) + r * q
  {
    assert (c * p + r) * q == c * p * q + r * q;
  }

  lemma TopByte(n: nat, c: nat, y: nat, w: nat)
    requires n == c * w + y && y < w
    ensures n / w == c && n * 256 % (w * 256) == y * 256
  {
    Modular.DivModUnique(n, w, c, y);
    assert c * (w * 256) == c * w * 256;
    Modular.DivModUnique(n * 256, w * 256, c, y * 256);
  }

  /** Shifting left by eight bits brings out the next byte. */
  lemma ShiftStep(total: nat, n: nat, top: nat, rest: nat, i: nat)
    requires i < 8 && Shifted(total, n, top, rest, i)
    ensures n / 0x100_0000_0000_0000 < 256
    ensures Shifted(total, n * 256 % 0x1_0000_0000_0000_0000, top * 256 + n / 0x100_0000_0000_0000, rest % Pow(256, 7 - i), i + 1)
  {
    hide Pow;
    WordPowers();
    var p, q := Pow(256, 7 - i), Pow(256, i);
    PowSum(256, 7 - i, i);
    PowStep(i + 1);
    PowStep(8 - i);
    assert Pow(256, 7) == p * q && 0x1_0000_0000_0000_0000 == p * q * 256;
    ShiftArithmetic(n, rest, p, q);
    NextTop(top, rest, p);
  }

  lemma NextTop(top: nat, rest: nat, p: nat)
    requires p > 0
    ensures top * (p * 256) + rest == (top * 256 + rest / p) * p + rest % p
  {
    assert top * (p * 256) == top * 256 * p;
    assert rest == rest / p * p + rest % p;
    assert (top * 256 + rest / p) * p == top * 256 * p + rest / p * p;
  }

  lemma EndShifted(total: nat, n: nat, top: nat, rest: nat)
    requires Shifted(total, n, top, rest, 8)
    ensures top == total
  {
    assert Pow(256, 0) == 1;
  }

  // ----- The bytes of a 256-bit number

  lemma StartLittle(n: Octets)
    ensures n[|n|..] == [] && Little(n[|n|..]) == 0 && Written([], true, false, 0)
  {
    assert Reverse<nat>([]) == [];
  }

  lemma LittleNext(n: Octets, k: nat)
    requires k < |n|
    ensures Little(n[k..]) == Little(n[k + 1..]) * 256 + n[k]
  {
    hide Num;
    assert Reverse(n[k..]) == Reverse(n[k + 1..]) + [n[k]];
    NumStep(256, Reverse(n[k + 1..]), n[k]);
  }

  /** The `i` last bytes of `vch` in the lowest places, and zeros above. */
  function LowBytes(vch: Octets, i: nat): (n: Octets)
    requires i <= 32 && i <= |vch|
    ensures |n| == 32
  {
    seq(32, j requires 0 <= j < 32 => if j < i then vch[|vch| - 1 - j] else 0)
  }

  lemma MagnitudeIs(body: Octets, vch: Octets)
    requires vch == if body == [] then body else body[0 := body[0] % 128]
    ensures Num(256, vch) == Magnitude(body)
  {
  }

  lemma ReverseLow(vch: Octets, i: nat)
    requires i <= 32 && i <= |vch|
    ensures Reverse(LowBytes(vch, i)) == Zeros(32 - i) + vch[|vch| - i..]
  {
  }

  lemma LowBytesNum(vch: Octets, i: nat)
    requires i <= 32 && i <= |vch| && (i == 32 || i == |vch|)
    ensures Little(LowBytes(vch, i)) == Num(256, vch) % Pow(256, 32)
  {
    hide Num, Pow, LowBytes, Reverse;
    var hi, lo := vch[..|vch| - i], vch[|vch| - i..];
    assert vch == hi + lo;
    NumConcat(256, hi, lo);
    NumBelow(256, lo);
    ReverseLow(vch, i);
    LeadingZeros(256, 32 - i, lo);
    PowAtMost(i, 32);
    if i == 32 {
      Modular.DivModUnique(Num(256, vch), Pow(256, 32), Num(256, hi), Num(256, lo));
    } else {
      assert hi == [];
      NumNone(256);
      Modular.SmallMod(Num(256, lo), Pow(256, 32));
    }
  }

  /** The bytes of a number decide it, and it decides them. */
  lemma LittleInjective(a: Octets, b: Octets)
    requires |a| == |b| && Little(a) == Little(b)
    ensures a == b
  {
    hide Num;
    var s, t := Reverse(a), Reverse(b);
    Normal(256, s);
    Normal(256, t);
    assert |Zeros(ZeroCount(s))| == |Zeros(ZeroCount(t))|;
    assert s == t;
    forall i | 0 <= i < |a|
      ensures a[i] == b[i]
    {
      assert a[i] == s[|a| - 1 - i] && b[i] == t[|a| - 1 - i];
    }
  }

  /** A 256-bit number put into a big number comes out again. */
  method Uint256RoundTrip(n: Octets) returns (m: Octets)
    requires |n| == 32
    ensures m == n
  {
    hide Num, Pow;
    var bn := new CBigNum();
    bn.SetUint256(n);
    m := bn.GetUint256();
    NumBelow(256, Reverse(n));
    Modular.SmallMod(Little(n), Pow(256, 32));
    LittleInjective(m, n);
  }

  class CBigNum {
    var value: int

    constructor ()
      ensures value == 0
    {
      value := 0;
    }

    /** BN_mpi2bn(pch, ..., this): the number is left as it was when the bytes are refused. */
    method Load(pch: Octets)
      modifies this
      ensures value == match Mpi2Bn(pch) case Some(v) => v case None => old(value)
    {
      match Mpi2Bn(pch)
      case Some(v) => value := v;
      case None =>
    }

    /** The bytes are taken, the last one first; of bytes whose size wraps around only the last ones,
        or none at all. */
    method SetVch(vch: Octets)
      modifies this
      ensures var m := |vch| % WORD;
              value == if m + 4 < 0x8000_0000 then FromBody(Reverse(vch)[..m]) else old(value)
      ensures |vch| + 4 < 0x8000_0000 ==> value == FromBody(Reverse(vch))
    {
      hide FromBody, Mpi2Bn, Header;
      ReadAny(Reverse(vch));
      assert Reverse(vch)[..|vch|] == Reverse(vch);
      Load(Header(|vch|) + Reverse(vch));
    }

    /** The bytes of the number, from which it can be read back. */
    method GetVch() returns (vch: Octets)
      ensures FromBody(Reverse(vch)) == value && vch == Reverse(Body(value))
    {
      hide Body, FromBody, Header;
      BodyRoundTrip(value);
      var mpi := Bn2Mpi(value);
      assert Reverse(Reverse(Body(value))) == Body(value);
      if |mpi| <= 4 {
        assert Reverse(Body(value)) == [];
        return [];
      }
      assert mpi[4..] == Body(value);
      vch := Reverse(mpi[4..]);
    }

    /** The number is exactly the argument, for all of its 64-bit values. */
    method SetInt64(sn: int)
      requires -0x8000_0000_0000_0000 <= sn < 0x8000_0000_0000_0000
      modifies this
      ensures value == sn
    {
      hide Num, Pow, FromBody, Header, Mpi2Bn, Written, Shifted;
      var fNegative, n := sn < 0, sn;
      if fNegative {
        n := -(sn + 1);
        n := n + 1;
      }
      var body: Octets := [];
      ghost var top: nat, rest: nat := 0, n;
      StartShifted(n);
      NoneWritten(fNegative);
      var fLeadingZeroes := true;
      var i := 0;
      while i < 8
        invariant 0 <= i <= 8 && n >= 0 && Shifted(Abs(sn), n, top, rest, i)
        invariant Written(body, fLeadingZeroes, fNegative, top)
        invariant |body| <= i + 1 && (fLeadingZeroes ==> body == [])
      {
        ShiftStep(Abs(sn), n, top, rest, i);
        var c := n / 0x100_0000_0000_0000 % 256;
        n := n * 256 % 0x1_0000_0000_0000_0000;
        WrittenNext(body, fLeadingZeroes, fNegative, top, c);
        top, rest := top * 256 + c, rest % Pow(256, 7 - i);
        i := i + 1;
        if fLeadingZeroes {
          if c == 0 {
            continue;
          }
          if c >= 128 {
            body := body + [if fNegative then 128 else 0];
          } else if fNegative {
            c := c + 128;
          }
          fLeadingZeroes := false;
        }
        body := body + [c];
      }
      EndShifted(Abs(sn), n, top, rest);
      WrittenIs(body, fLeadingZeroes, fNegative, top);
      ReadBack(body);
      Load(Header(|body|) + body);
    }

    /** The argument is given by its 32 bytes in memory. */
    method SetUint256(n: Octets)
      requires |n| == 32
      modifies this
      ensures value == Little(n)
    {
      hide Num, FromBody, Header, Mpi2Bn, Written;
      var body: Octets := [];
      var fLeadingZeroes := true;
      var k := |n|;
      StartLittle(n);
      while k > 0
        invariant 0 <= k <= |n|
        invariant Written(body, fLeadingZeroes, false, Little(n[k..]))
        invariant |body| <= |n| - k + 1 && (fLeadingZeroes ==> body == [])
      {
        k := k - 1;
        var c := n[k];
        LittleNext(n, k);
        WrittenNext(body, fLeadingZeroes, false, Little(n[k + 1..]), c);
        if fLeadingZeroes {
          if c == 0 {
            continue;
          }
          if c >= 128 {
            body := body + [0];
          }
          fLeadingZeroes := false;
        }
        body := body + [c];
      }
      assert n[0..] == n;
      WrittenIs(body, fLeadingZeroes, false, Little(n));
      ReadBack(body);
      Load(Header(|body|) + body);
    }

    /** The low 32 bytes of the magnitude. */
    method GetUint256() returns (n: Octets)
      ensures |n| == 32 && Little(n) == Abs(value) % Pow(256, 32)
    {
      hide Num, Pow, Body;
      var vch := Body(value);
      if vch != [] {
        vch := vch[0 := vch[0] % 128];
      }
      n := seq(32, i => 0);
      var i := 0;
      while i < 32 && i < |vch|
        invariant 0 <= i <= 32 && i <= |vch| && |n| == 32
        invariant n == LowBytes(vch, i)
      {
        n := n[i := vch[|vch| - 1 - i]];
        i := i + 1;
      }
      BodyMagnitude(value);
      MagnitudeIs(Body(value), vch);
      LowBytesNum(vch, i);
    }

    method SetCompact(nCompact: nat)
      requires nCompact < 0x1_0000_0000
      modifies this
      ensures value == FromBody(Expanded(nCompact))
    {
      hide Num, FromBody, Header, Mpi2Bn;
      var nSize := nCompact / 0x100_0000;
      var body: Octets := seq(nSize, i => 0);
      if nSize >= 1 {
        body := body[0 := nCompact / 0x1_0000 % 256];
      }
      if nSize >= 2 {
        body := body[1 := nCompact / 0x100 % 256];
      }
      if nSize >= 3 {
        body := body[2 := nCompact % 256];
      }
      assert body == Expanded(nCompact);
      ReadBack(body);
      ShortHeader(nSize);
      Load([0, 0, 0, nSize] + body);
    }

    method GetCompact() returns (nCompact: nat)
      ensures nCompact == Compact(value)
    {
      hide Body;
      var vch := Body(value);
      var nSize := |vch|;
      nCompact := nSize * 0x100_0000 % 0x1_0000_0000;
      if nSize >= 1 {
        nCompact := nCompact + vch[0] * 0x1_0000;
      }
      if nSize >= 2 {
        nCompact := nCompact + vch[1] * 0x100;
      }
      if nSize >= 3 {
        nCompact := nCompact + vch[2];
      }
      assert nSize * 0x100_0000 % 0x1_0000_0000 == nSize % 256 * 0x100_0000;
    }
  }

  // ----- Numbers that are not negative

  /** What the bytes of a positive number look like: no zero in front but to make room for the sign. */
  predicate Canonical(b: Octets) {
    |b| > 0 && b[0] < 128 && (b[0] > 0 || (|b| > 1 && b[1] >= 128))
  }

  lemma BodyCanonical(v: nat)
    requires v > 0
    ensures Canonical(Body(v)) && Num(256, Body(v)) == v
  {
    hide Num, Digits;
    var m := Digits(256, v);
    FirstDigit(256, v);
    NumDigits(256, v);
    LeadingZeros(256, 1, m);
    assert Zeros(1) == [0];
  }

  lemma CanonicalBody(b: Octets)
    requires Canonical(b)
    ensures Num(256, b) > 0 && Body(Num(256, b)) == b && FromBody(b) == Num(256, b)
  {
    hide Num, Digits;
    assert b[0 := b[0] % 128] == b;
    NumZero(256, b);
    if b[0] > 0 {
      DigitsNum(256, b);
    } else {
      assert b == Zeros(1) + b[1..];
      LeadingZeros(256, 1, b[1..]);
      DigitsNum(256, b[1..]);
    }
  }

  /** The bytes kept by the compact form. */
  function Kept(b: Octets): Octets {
    seq(|b|, i requires 0 <= i < |b| => if i < 3 then b[i] else 0)
  }

  lemma ExpandedCompact(b: Octets)
    requires |b| < 256
    ensures Expanded(|b| * 0x100_0000 + Top(b)) == Kept(b)
  {
    CompactParts(|b|, At(b, 0), At(b, 1), At(b, 2));
    hide At;
    ExpandedParts(b, |b| * 0x100_0000 + Top(b));
  }

  lemma CompactParts(l: nat, x: nat, y: nat, z: nat)
    requires x < 256 && y < 256 && z < 256
    ensures var c := l * 0x100_0000 + (x * 0x1_0000 + y * 0x100 + z);
            c / 0x100_0000 == l && c / 0x1_0000 % 256 == x && c / 0x100 % 256 == y && c % 256 == z
  {
    var c, u := l * 0x100_0000 + (x * 0x1_0000 + y * 0x100 + z), l * 256 + x;
    Modular.DivModUnique(c, 0x100_0000, l, x * 0x1_0000 + y * 0x100 + z);
    Modular.DivModUnique(c, 0x1_0000, u, y * 0x100 + z);
    Modular.DivModUnique(u, 256, l, x);
    Modular.DivModUnique(c, 0x100, u * 256 + y, z);
    Modular.DivModUnique(u * 256 + y, 256, u, y);
  }

  lemma ExpandedParts(b: Octets, c: nat)
    requires c / 0x100_0000 == |b|
    requires c / 0x1_0000 % 256 == At(b, 0) && c / 0x100 % 256 == At(b, 1) && c % 256 == At(b, 2)
    ensures Expanded(c) == Kept(b)
  {
  }

  lemma KeptCanonical(b: Octets)
    requires Canonical(b)
    ensures Canonical(Kept(b)) && Top(Kept(b)) == Top(b) && |Kept(b)| == |b|
  {
  }

  /** Of a number with `n` bytes, what is kept is all but its last `n` - 3 bytes. */
  lemma KeptNum(b: Octets)
    requires |b| > 0
    ensures |b| <= 3 ==> Kept(b) == b
    ensures |b| > 3 ==> Num(256, Kept(b)) == Num(256, b) - Num(256, b) % Pow(256, |b| - 3)
    ensures |b| >= 3 ==> Top(b) == Num(256, b) / Pow(256, |b| - 3)
  {
    hide Num, Pow;
    if |b| >= 3 {
      var hi, lo := b[..3], b[3..];
      assert b == hi + lo;
      NumConcat(256, hi, lo);
      NumBelow(256, lo);
      Modular.DivModUnique(Num(256, b), Pow(256, |lo|), Num(256, hi), Num(256, lo));
      NumThree(b);
      assert Kept(b) == hi + Zeros(|lo|);
      NumConcat(256, hi, Zeros(|lo|));
      NumZero(256, Zeros(|lo|));
    } else {
      assert Kept(b) == b;
    }
    if |b| == 3 {
      assert Kept(b) == b;
    }
  }

  lemma NumThree(b: Octets)
    requires |b| >= 3
    ensures Num(256, b[..3]) == Top(b)
  {
    hide Num;
    NumNone(256);
    NumStep(256, [], b[0]);
    NumStep(256, [b[0]], b[1]);
    NumStep(256, [b[0], b[1]], b[2]);
    assert [] + [b[0]] == [b[0]] && [b[0]] + [b[1]] == [b[0], b[1]];
    assert [b[0], b[1]] + [b[2]] == b[..3];
  }

  /** Through the compact form a number loses its bytes past the third, and no more. */
  lemma CompactLoss(n: nat)
    requires |Body(n)| < 256
    ensures var m, size := FromBody(Expanded(Compact(n))), |Body(n)|;
            && (size <= 3 ==> m == n)
            && (size > 3 ==> m == n - n % Pow(256, size - 3) && 0 <= n - m < Pow(256, size - 3))
  {
    hide Num, Pow, Body, Magnitude, Top, Kept, Expanded, FromBody, Canonical;
    if n == 0 {
      CompactZero();
    } else {
      var b := Body(n);
      BodyCanonical(n);
      ExpandedCompact(b);
      KeptCanonical(b);
      CanonicalBody(Kept(b));
      KeptNum(b);
    }
  }

  lemma CompactZero()
    ensures Compact(0) == 0 && FromBody(Expanded(0)) == 0
  {
  }

  /** A compact form read and written again stays as it is. */
  lemma CompactIdempotent(n: nat)
    requires |Body(n)| < 256
    ensures Compact(FromBody(Expanded(Compact(n)))) == Compact(n)
  {
    hide Num, Pow, Body, Magnitude, Top, Kept, Expanded, FromBody, Canonical;
    if n == 0 {
      CompactZero();
    } else {
      var b := Body(n);
      BodyCanonical(n);
      ExpandedCompact(b);
      KeptCanonical(b);
      CanonicalBody(Kept(b));
    }
  }

  /** The size of a number bounds it. */
  lemma CanonicalBounds(b: Octets)
    requires Canonical(b)
    ensures Num(256, b) < 128 * Pow(256, |b| - 1)
    ensures |b| >= 2 ==> Num(256, b) >= 128 * Pow(256, |b| - 2)
  {
    hide Num, Pow;
    var p := Pow(256, |b| - 1);
    assert b == [b[0]] + b[1..];
    NumConcat(256, [b[0]], b[1..]);
    NumBelow(256, b[1..]);
    NumOne(b[0]);
    Modular.MulAtMost(b[0] + 1, 128, p);
    assert (b[0] + 1) * p == b[0] * p + p;
    if |b| >= 2 {
      var q := Pow(256, |b| - 2);
      PowStep(|b| - 1);
      if b[0] > 0 {
        Modular.MulAtLeast(b[0], p);
      } else {
        assert b[1..] == [b[1]] + b[2..];
        NumConcat(256, [b[1]], b[2..]);
        NumOne(b[1]);
        Modular.MulAtMost(128, b[1], q);
      }
    }
  }

  lemma NumOne(d: nat)
    ensures Num(256, [d]) == d
  {
    hide Num;
    NumNone(256);
    NumStep(256, [], d);
    assert [] + [d] == [d];
  }

  lemma PowStep(n: nat)
    requires n > 0
    ensures Pow(256, n) == Pow(256, n - 1) * 256
  {
  }

  lemma {:induction false} PowAtMost(m: nat, n: nat)
    requires m <= n
    ensures Pow(256, m) <= Pow(256, n)
  {
    if m < n {
      PowAtMost(m, n - 1);
    }
  }

  lemma SizeMonotone(n: nat, m: nat)
    requires n <= m
    ensures |Body(n)| <= |Body(m)|
  {
    hide Num, Pow, Body, Canonical;
    if n > 0 {
      BodyCanonical(n);
      BodyCanonical(m);
      CanonicalBounds(Body(n));
      CanonicalBounds(Body(m));
      if |Body(m)| < |Body(n)| {
        assert |Body(m)| >= 1;
        PowAtMost(|Body(m)| - 1, |Body(n)| - 2);
      }
    }
  }

  /** The compact forms are in the order of the numbers. */
  lemma CompactMonotone(n: nat, m: nat)
    requires n <= m && |Body(m)| < 256
    ensures Compact(n) <= Compact(m)
  {
    hide Num, Pow, Body, Canonical, Top;
    SizeMonotone(n, m);
    if n > 0 && |Body(n)| == |Body(m)| {
      BodyCanonical(n);
      BodyCanonical(m);
      TopMonotone(Body(n), Body(m));
    } else if n == 0 {
      CompactZero();
    }
  }

  lemma TopMonotone(a: Octets, b: Octets)
    requires |a| == |b| > 0 && Num(256, a) <= Num(256, b)
    ensures Top(a) <= Top(b)
  {
    hide Num, Pow;
    if |a| >= 3 {
      KeptNum(a);
      KeptNum(b);
      DivMonotone(Num(256, a), Num(256, b), Pow(256, |a| - 3));
    } else if |a| == 2 {
      assert a == [a[0]] + [a[1]] && b == [b[0]] + [b[1]];
      NumStep(256, [a[0]], a[1]);
      NumStep(256, [b[0]], b[1]);
      NumOne(a[0]);
      NumOne(b[0]);
    } else {
      assert a == [a[0]] && b == [b[0]];
      NumOne(a[0]);
      NumOne(b[0]);
    }
  }

  lemma DivMonotone(x: nat, y: nat, p: nat)
    requires x <= y && p > 0
    ensures x / p <= y / p
  {
    assert x == x / p * p + x % p && y == y / p * p + y % p;
    assert (y / p + 1) * p == y / p * p + p;
    if y / p < x / p {
      Modular.MulAtMost(y / p + 1, x / p, p);
      assert false;
    }
  }
}
