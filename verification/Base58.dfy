/** Base58 strings: a bijection between byte strings and strings over the alphabet, and the
    checked strings of addresses built on it. */
module Base58 {
  import opened Basics
  import opened Bignum
  import opened Radix
  import Modular

  const ALPHABET: string :=
    "123456789" + "ABCDEFGH" + "JKLMN" + "PQRSTUVWXYZ" + "abcdefghijk" + "mnopqrstuvwxyz"

  lemma AlphabetSize()
    ensures |ALPHABET| == 58
  {
  }

  lemma AlphabetAscends(i: nat)
    requires i < 57
    ensures |ALPHABET| == 58 && ALPHABET[i] < ALPHABET[i + 1]
  {
  }

  lemma {:induction false} AlphabetDistinct(i: nat, j: nat)
    requires i < j < 58
    ensures |ALPHABET| == 58 && ALPHABET[i] < ALPHABET[j]
  {
    hide ALPHABET;
    AlphabetSize();
    AlphabetAscends(j - 1);
    if i < j - 1 {
      AlphabetDistinct(i, j - 1);
    }
  }

  type Digits58 = s: seq<nat> | forall i | 0 <= i < |s| :: s[i] < 58

  function Letter(d: nat): char
    requires d < 58
  {
    AlphabetSize();
    ALPHABET[d]
  }

  function Letters(ds: Digits58): (s: string)
    ensures |s| == |ds| && forall i | 0 <= i < |ds| :: s[i] == Letter(ds[i])
  {
    seq(|ds|, i requires 0 <= i < |ds| => Letter(ds[i]))
  }

  /** strchr in the alphabet: the place of a character, or 58. */
  function PlaceFrom(c: char, i: nat): (d: nat)
    requires i <= 58
    ensures i <= d <= 58
    ensures d < 58 ==> Letter(d) == c
    ensures forall j | i <= j < d :: Letter(j) != c
    decreases 58 - i
  {
    if i == 58 || Letter(i) == c then i else PlaceFrom(c, i + 1)
  }

  function Place(c: char): (d: nat)
    ensures d <= 58
    ensures d < 58 ==> Letter(d) == c
  {
    PlaceFrom(c, 0)
  }

  lemma PlaceOfLetter(d: nat)
    requires d < 58
    ensures Place(Letter(d)) == d
  {
    hide ALPHABET, PlaceFrom;
    var e := PlaceFrom(Letter(d), 0);
    if e < d {
      AlphabetDistinct(e, d);
    }
    assert e <= d;
  }

  predicate InAlphabet(c: char) {
    Place(c) < 58
  }

  function Places(s: string): (ds: Digits58)
    requires forall i | 0 <= i < |s| :: InAlphabet(s[i])
    ensures |ds| == |s| && forall i | 0 <= i < |s| :: ds[i] == Place(s[i])
  {
    assert forall i | 0 <= i < |s| :: Place(s[i]) < 58 by {
      forall i | 0 <= i < |s|
        ensures Place(s[i]) < 58
      {
        assert InAlphabet(s[i]);
      }
    }
    seq(|s|, i requires 0 <= i < |s| && InAlphabet(s[i]) => Place(s[i]))
  }

  lemma PlacesOfLetters(ds: Digits58)
    ensures (forall i | 0 <= i < |ds| :: InAlphabet(Letters(ds)[i])) && Places(Letters(ds)) == ds
  {
    hide Place, Letter;
    forall i | 0 <= i < |ds|
      ensures Place(Letters(ds)[i]) == ds[i]
    {
      PlaceOfLetter(ds[i]);
    }
  }

  lemma LettersOfPlaces(s: string)
    requires forall i | 0 <= i < |s| :: InAlphabet(s[i])
    ensures Letters(Places(s)) == s
  {
    hide Place, Letter;
  }

  // ----- Encoding

  /** The code of a byte string: a one for each leading zero, and the digits of its number. */
  function Encode(b: Octets): string {
    Code(b, Num(256, b))
  }

  function Code(b: Octets, n: nat): string {
    Letters(Zeros(ZeroCount(b)) + Digits(58, n))
  }

  /** The number that the bytes give when they go through the MPI format, whose size wraps around. */
  function Loaded(b: Octets): nat {
    var m := (|b| + 1) % WORD;
    if m + 4 < 0x8000_0000 then Num(256, ([0] + b)[..m]) else 0
  }

  /** What the code makes of a byte string. */
  function EncodeAny(b: Octets): string {
    Code(b, Loaded(b))
  }

  /** The bytes whose number survives that: those that are not too many, and those that are all zero. */
  predicate Encodable(b: Octets) {
    |b| + 5 < 0x8000_0000 || forall i | 0 <= i < |b| :: b[i] == 0
  }

  lemma LoadedExactly(b: Octets)
    ensures Loaded(b) == Num(256, b) <==> Encodable(b)
  {
    hide Num, Pow;
    var z, m := [0] + b, (|b| + 1) % WORD;
    assert z == Zeros(1) + b;
    LeadingZeros(256, 1, b);
    NumZero(256, b);
    if |b| + 5 < 0x8000_0000 {
      assert z[..m] == z;
    } else if m + 4 < 0x8000_0000 {
      CutShort(z, m);
    }
  }

  /** Only of the number zero nothing is lost when the last digits are cut off. */
  lemma CutShort(z: Octets, m: nat)
    requires m < |z|
    ensures Num(256, z[..m]) == Num(256, z) <==> Num(256, z) == 0
  {
    hide Num, Pow;
    assert z == z[..m] + z[m..];
    NumConcat(256, z[..m], z[m..]);
    PowAbove(|z[m..]|);
    Grows(Num(256, z[..m]), Pow(256, |z[m..]|), Num(256, z[m..]));
  }

  lemma PowAbove(n: nat)
    requires n > 0
    ensures Pow(256, n) > 1
  {
  }

  lemma Grows(x: nat, p: nat, y: nat)
    requires p > 1
    ensures x * p + y == x ==> x == 0 && y == 0
    ensures x == 0 ==> x * p + y == y
  {
    if x > 0 {
      assert x * p == x * (p - 1) + x;
      Modular.MulAtLeast(p - 1, x);
      assert (p - 1) * x == x * (p - 1);
    }
  }

  lemma CodeInjective(b: Octets, n: nat, m: nat)
    requires Code(b, n) == Code(b, m)
    ensures n == m
  {
    hide Digits, Num, Place;
    var k := ZeroCount(b);
    PlacesOfLetters(Zeros(k) + Digits(58, n));
    PlacesOfLetters(Zeros(k) + Digits(58, m));
    assert (Zeros(k) + Digits(58, n))[k..] == Digits(58, n) && (Zeros(k) + Digits(58, m))[k..] == Digits(58, m);
    NumDigits(58, n);
    NumDigits(58, m);
  }

  /** The code of the bytes comes out just when they are encodable. */
  lemma EncodesExactly(b: Octets)
    ensures EncodeAny(b) == Encode(b) <==> Encodable(b)
  {
    hide Code, Loaded, Num, Encodable;
    LoadedExactly(b);
    if EncodeAny(b) == Encode(b) {
      CodeInjective(b, Loaded(b), Num(256, b));
    }
  }

  lemma ReverseAppend(s: string, c: char)
    ensures Reverse(s + [c]) == [c] + Reverse(s)
  {
  }

  /** A leading zero byte keeps the number from being negative. */
  lemma PositiveBody(b: Octets, m: nat)
    requires m <= |b| + 1
    ensures Reverse(Reverse(b) + [0]) == [0] + b
    ensures FromBody(([0] + b)[..m]) == Num(256, ([0] + b)[..m])
  {
    hide Num;
    NumNone(256);
    var z := ([0] + b)[..m];
    if m > 0 {
      assert z[0 := z[0] % 128] == z;
    }
  }

  /** One more digit, the least significant one, taken off. */
  lemma NextLetter(n: nat, str: string)
    requires n > 0
    ensures n % 58 < 58 && Letters(Digits(58, n)) + Reverse(str) == Letters(Digits(58, n / 58)) + Reverse(str + [Letter(n % 58)])
  {
    hide Digits, Letter;
    DigitsStep(58, n);
    ReverseAppend(str, Letter(n % 58));
  }

  /** The loops of EncodeBase58. */
  method WriteCode(b: Octets, value: nat) returns (str: string)
    ensures str == Code(b, value)
  {
    hide Num, Digits, Letter, Letters, ALPHABET;
    str := "";
    var n := value;
    assert Letters(Digits(58, n)) + Reverse(str) == Letters(Digits(58, n));
    while n > 0
      invariant n >= 0
      invariant Letters(Digits(58, n)) + Reverse(str) == Letters(Digits(58, value))
    {
      NextLetter(n, str);
      var c := n % 58;
      n := n / 58;
      str := str + [Letter(c)];
    }
    assert Digits(58, 0) == [] && Letters([]) == [];
    ghost var digits := str;
    assert Reverse(digits) == Letters(Digits(58, value));
    var p := 0;
    while p < |b| && b[p] == 0
      invariant 0 <= p <= |b| && (forall i | 0 <= i < p :: b[i] == 0)
      invariant str == digits + Letters(Zeros(p))
    {
      ZeroLetters(p);
      str := str + [Letter(0)];
      p := p + 1;
    }
    CountedZeros(b, p);
    ReverseAll(digits, p, Digits(58, value));
    str := Reverse(str);
  }

  method EncodeBase58(b: Octets) returns (str: string)
    ensures str == EncodeAny(b)
    ensures Encodable(b) <==> str == Encode(b)
  {
    hide Num, FromBody, Encodable, Code, Encode;
    EncodesExactly(b);
    var vchTmp := Reverse(b) + [0];
    var bn := new CBigNum();
    bn.SetVch(vchTmp);
    PositiveBody(b, |vchTmp| % WORD);
    assert bn.value == Loaded(b);
    hide Loaded;
    str := WriteCode(b, bn.value);
  }

  lemma ZeroLetters(p: nat)
    ensures Letters(Zeros(p + 1)) == Letters(Zeros(p)) + [Letter(0)]
  {
    hide Letter;
  }

  lemma {:induction false} CountedZeros(b: seq<nat>, p: nat)
    requires p <= |b| && (forall i | 0 <= i < p :: b[i] == 0) && (p < |b| ==> b[p] != 0)
    ensures ZeroCount(b) == p
  {
    if p > 0 {
      CountedZeros(b[1..], p - 1);
    }
  }

  lemma ReverseAll(digits: string, p: nat, ds: Digits58)
    requires Reverse(digits) == Letters(ds)
    ensures Reverse(digits + Letters(Zeros(p))) == Letters(Zeros(p) + ds)
  {
    hide Letter;
    var s, t := digits + Letters(Zeros(p)), Letters(Zeros(p) + ds);
    forall i | 0 <= i < |s|
      ensures Reverse(s)[i] == t[i]
    {
      if i >= p {
        assert Reverse(digits)[i - p] == Letters(ds)[i - p];
      }
    }
  }

  // ----- Decoding

  predicate IsSpace(c: char) {
    c == ' ' || c == '\t' || c == '\n' || c == '\U{B}' || c == '\U{C}' || c == '\r'
  }

  /** What a C string function sees of a string. */
  function CString(s: string): string {
    if |s| == 0 || s[0] == '\0' then "" else [s[0]] + CString(s[1..])
  }

  function SkipSpace(s: string): string {
    if |s| > 0 && IsSpace(s[0]) then SkipSpace(s[1..]) else s
  }

  /** The characters of the alphabet that a string starts with. */
  function Start(s: string): (n: nat)
    ensures n <= |s|
    ensures forall i | 0 <= i < n :: InAlphabet(s[i])
    ensures n < |s| ==> !InAlphabet(s[n])
  {
    if |s| == 0 || !InAlphabet(s[0]) then 0 else 1 + Start(s[1..])
  }

  /** The base58 part of a string, which may have blanks before and after it but nothing else. */
  function Core(s: string): (r: Option<string>)
    ensures r.Some? ==> forall i | 0 <= i < |r.value| :: InAlphabet(r.value[i])
  {
    var t := SkipSpace(CString(s));
    var n := Start(t);
    if SkipSpace(t[n..]) == "" then Some(t[..n]) else None
  }

  function Bytes(ds: Digits58): Octets {
    Zeros(ZeroCount(ds)) + Digits(256, Num(58, ds))
  }

  function Decoded(s: string): Option<Octets> {
    match Core(s)
    case None => None
    case Some(u) => Some(Bytes(Places(u)))
  }

  /** The bytes of a number, with the sign byte trimmed off. */
  function Trimmed(vch: Octets): Octets {
    if |vch| >= 2 && vch[|vch| - 1] == 0 && vch[|vch| - 2] >= 0x80 then vch[..|vch| - 1] else vch
  }

  lemma TrimmedIsDigits(n: nat)
    ensures Reverse(Trimmed(Reverse(Body(n)))) == Digits(256, n)
  {
    hide *;
    BodyOfNat(n);
    ReverseTwice(Digits(256, n));
    if n == 0 {
      TrimmedNone();
    } else {
      FirstDigit(256, n);
      TrimmedBody(Digits(256, n));
    }
  }

  lemma BodyOfNat(n: nat)
    ensures n == 0 ==> Body(n) == [] == Digits(256, n)
    ensures n > 0 ==> var m := Digits(256, n); |m| > 0 && Body(n) == if m[0] >= 128 then [0] + m else m
  {
    hide Digits;
  }

  lemma TrimmedNone()
    ensures Reverse(Trimmed(Reverse([]))) == []
  {
  }

  lemma TrimmedBody(m: Octets)
    requires |m| > 0 && m[0] > 0
    ensures Trimmed(Reverse(if m[0] >= 128 then [0] + m else m)) == Reverse(m)
  {
    if m[0] >= 128 {
      assert Reverse([0] + m) == Reverse(m) + [0];
    }
  }

  lemma ReverseTwice(m: Octets)
    ensures Reverse(Reverse(m)) == m
  {
  }

  lemma NextPlace(t: string, n: nat)
    requires n < Start(t)
    ensures InAlphabet(t[n])
    ensures Num(58, Places(t[..n + 1])) == Num(58, Places(t[..n])) * 58 + Place(t[n])
  {
    hide Place, Num;
    assert t[..n + 1] == t[..n] + [t[n]];
    NumStep(58, Places(t[..n]), Place(t[n]));
    assert Places(t[..n + 1]) == Places(t[..n]) + [Place(t[n])];
  }

  method SkipBlanks(s: string) returns (t: string)
    ensures t == SkipSpace(s)
  {
    t := s;
    while |t| > 0 && IsSpace(t[0])
      invariant SkipSpace(t) == SkipSpace(s)
    {
      t := t[1..];
    }
  }

  lemma CoreIs(s: string, psz: string)
    requires psz == SkipSpace(CString(s))
    ensures Core(s) == if SkipSpace(psz[Start(psz)..]) == "" then Some(psz[..Start(psz)]) else None
  {
    hide Start, SkipSpace, CString;
  }

  lemma NothingToSkip()
    ensures SkipSpace("") == ""
  {
  }

  method CountOnes(psz: string, p: nat) returns (nLeadingZeros: nat)
    requires p == Start(psz)
    ensures nLeadingZeros == ZeroCount(Places(psz[..p]))
  {
    hide Place, ALPHABET, Start, Letter, ZeroCount;
    nLeadingZeros := 0;
    PlaceOfLetter(0);
    while nLeadingZeros < |psz| && psz[nLeadingZeros] == Letter(0)
      invariant 0 <= nLeadingZeros <= p && forall i | 0 <= i < nLeadingZeros :: psz[i] == Letter(0)
    {
      if nLeadingZeros == p {
        assert false;
      }
      nLeadingZeros := nLeadingZeros + 1;
    }
    FirstLetters(psz[..p], nLeadingZeros);
  }

  method DecodeBase58(s: string) returns (ok: bool, vchRet: Octets)
    ensures if ok then Decoded(s) == Some(vchRet) else Decoded(s) == None && vchRet == []
  {
    hide Place, Num, Digits, ALPHABET, Body, Start, SkipSpace, CString, Core, Trimmed, ZeroCount;
    vchRet := [];
    var psz := SkipBlanks(CString(s));
    CoreIs(s, psz);
    var bn := new CBigNum();
    var p := 0;
    NumNone(58);
    assert Places(psz[..0]) == [];
    while p < |psz|
      invariant 0 <= p <= Start(psz) && bn.value == Num(58, Places(psz[..p]))
    {
      var p1 := Place(psz[p]);
      if p1 == 58 {
        StartIs(psz, p);
        var q := SkipBlanks(psz[p..]);
        if |q| > 0 {
          return false, [];
        }
        break;
      }
      StartAbove(psz, p);
      NextPlace(psz, p);
      bn.value := bn.value * 58 + p1;
      p := p + 1;
    }
    StartIs(psz, p);
    NothingToSkip();
    assert p == |psz| ==> psz[p..] == "";
    assert SkipSpace(psz[p..]) == "";
    var vchTmp := bn.GetVch();
    TrimmedIsDigits(bn.value);
    vchTmp := Trimmed(vchTmp);
    var nLeadingZeros := CountOnes(psz, p);
    vchRet := Zeros(nLeadingZeros) + Reverse(vchTmp);
    ok := true;
  }

  lemma StartAbove(t: string, n: nat)
    requires n <= Start(t) && n < |t| && InAlphabet(t[n])
    ensures n < Start(t)
  {
  }

  lemma StartIs(t: string, n: nat)
    requires n <= Start(t) && (n < |t| ==> !InAlphabet(t[n]))
    ensures n == Start(t)
  {
  }

  lemma FirstLetters(u: string, k: nat)
    requires (forall i | 0 <= i < |u| :: InAlphabet(u[i])) && k <= |u|
    requires (forall i | 0 <= i < k :: u[i] == Letter(0)) && (k < |u| ==> u[k] != Letter(0))
    ensures ZeroCount(Places(u)) == k
  {
    hide Place, Letter;
    PlaceOfLetter(0);
    CountedZeros(Places(u), k);
  }

  // ----- Round trips

  /** Bytes and digits determine each other, zeros in front included. */
  lemma BytesOfDigits(b: Octets)
    ensures Bytes(Zeros(ZeroCount(b)) + Digits(58, Num(256, b))) == b
  {
    hide Num, Digits;
    var n := Num(256, b);
    if n > 0 {
      FirstDigit(58, n);
    }
    ZeroCountIs(ZeroCount(b), Digits(58, n));
    LeadingZeros(58, ZeroCount(b), Digits(58, n));
    NumDigits(58, n);
    Normal(256, b);
  }

  lemma DigitsOfBytes(ds: Digits58)
    ensures Zeros(ZeroCount(Bytes(ds))) + Digits(58, Num(256, Bytes(ds))) == ds
  {
    hide Num, Digits;
    var n := Num(58, ds);
    if n > 0 {
      FirstDigit(256, n);
    }
    ZeroCountIs(ZeroCount(ds), Digits(256, n));
    LeadingZeros(256, ZeroCount(ds), Digits(256, n));
    NumDigits(256, n);
    Normal(58, ds);
  }

  /** A string over the alphabet is all core. */
  lemma CoreOfLetters(s: string)
    requires forall i | 0 <= i < |s| :: InAlphabet(s[i])
    ensures Core(s) == Some(s)
  {
    hide Place;
    WholeCString(s);
    if |s| > 0 {
      NoSpace(s[0]);
    }
    assert s[..|s|] == s;
  }

  lemma NoSpace(c: char)
    requires InAlphabet(c)
    ensures !IsSpace(c) && c != '\0'
  {
    hide PlaceFrom;
    LetterAboveZero(Place(c));
  }

  lemma LetterAboveZero(d: nat)
    requires d < 58
    ensures Letter(d) >= '1'
  {
    hide ALPHABET;
    if d > 0 {
      AlphabetDistinct(0, d);
    }
    FirstLetter();
  }

  lemma FirstLetter()
    ensures |ALPHABET| == 58 && ALPHABET[0] == '1'
  {
  }

  lemma {:induction false} WholeCString(s: string)
    requires forall i | 0 <= i < |s| :: InAlphabet(s[i])
    ensures CString(s) == s && Start(s) == |s|
  {
    hide Place;
    if |s| > 0 {
      NoSpace(s[0]);
      WholeCString(s[1..]);
    }
  }

  /** Decoding inverts encoding, on every byte string. */
  lemma DecodeEncode(b: Octets)
    ensures Decoded(Encode(b)) == Some(b)
  {
    hide Num, Digits, Place, Core, Bytes, Letters;
    var ds := Zeros(ZeroCount(b)) + Digits(58, Num(256, b));
    PlacesOfLetters(ds);
    CoreOfLetters(Letters(ds));
    BytesOfDigits(b);
  }

  /** Encoding inverts decoding: a string decodes to the bytes that its core is the code of, and to
      no others. */
  lemma DecodedExactly(s: string, b: Octets)
    ensures Decoded(s) == Some(b) <==> Core(s) == Some(Encode(b))
  {
    hide Num, Digits, Place, Core, Bytes, Letters, Places;
    if Core(s) == Some(Encode(b)) {
      var ds := Zeros(ZeroCount(b)) + Digits(58, Num(256, b));
      PlacesOfLetters(ds);
      BytesOfDigits(b);
    }
    if Decoded(s) == Some(b) {
      var u := Core(s).value;
      DigitsOfBytes(Places(u));
      LettersOfPlaces(u);
    }
  }

  /** Every string over the alphabet is the code of what it decodes to. */
  lemma EncodeDecode(s: string)
    requires forall i | 0 <= i < |s| :: InAlphabet(s[i])
    ensures Decoded(s).Some? && Encode(Decoded(s).value) == s
  {
    hide Num, Digits, Place, Core, Encode, Bytes;
    CoreOfLetters(s);
    DecodedExactly(s, Decoded(s).value);
  }

  // ----- The core

  /** A string has a core just when, up to its first null character, it is that over the alphabet with blanks before
      and after it. */
  lemma CoreExactly(s: string, u: string)
    ensures Core(s) == Some(u) <==>
              exists i, j :: 0 <= i <= j <= |CString(s)| && CString(s)[i..j] == u && IsCore(CString(s), i, j)
  {
    hide Core, CString, IsCore;
    var c := CString(s);
    if Core(s) == Some(u) {
      var i, j := CoreAt(s);
    }
    if i, j :| 0 <= i <= j <= |c| && c[i..j] == u && IsCore(c, i, j) {
      OneCore(c, i, j);
      CoreIs(s, SkipSpace(c));
    }
  }

  lemma CoreAt(s: string) returns (i: nat, j: nat)
    requires Core(s).Some?
    ensures i <= j <= |CString(s)| && CString(s)[i..j] == Core(s).value && IsCore(CString(s), i, j)
  {
    var c := CString(s);
    var t := SkipSpace(c);
    hide *;
    CoreIs(s, t);
    Skipped(c);
    var n := Start(t);
    Skipped(t[n..]);
    i, j := |c| - |t|, |c| - |t| + n;
    PartsOfCore(c, i, n);
  }

  lemma PartsOfCore(c: string, i: nat, n: nat)
    requires i + n <= |c| && forall k | 0 <= k < i :: IsSpace(c[k])
    requires forall k | 0 <= k < n :: InAlphabet(c[i..][k])
    requires forall k | 0 <= k < |c| - i - n :: IsSpace(c[i..][n..][k])
    ensures c[i..i + n] == c[i..][..n] && IsCore(c, i, i + n)
  {
    hide IsSpace, InAlphabet;
    forall k | i <= k < i + n
      ensures InAlphabet(c[k])
    {
      assert c[k] == c[i..][k - i];
    }
    forall k | i + n <= k < |c|
      ensures IsSpace(c[k])
    {
      assert c[k] == c[i..][n..][k - i - n];
    }
  }

  ghost predicate IsCore(c: string, i: int, j: int)
    requires 0 <= i <= j <= |c|
  {
    && (forall k | 0 <= k < i :: IsSpace(c[k])) && (forall k | j <= k < |c| :: IsSpace(c[k]))
    && forall k | i <= k < j :: InAlphabet(c[k])
  }

  lemma OneCore(c: string, i: int, j: int)
    requires 0 <= i <= j <= |c| && IsCore(c, i, j)
    ensures var t := SkipSpace(c); SkipSpace(t[Start(t)..]) == "" && t[..Start(t)] == c[i..j]
  {
    hide Start, SkipSpace, IsSpace, InAlphabet;
    var t := SkipSpace(c);
    Skipped(c);
    var n := Start(t);
    if i < j {
      NoSpace(c[i]);
      assert |c| - |t| == i;
      assert t == c[i..];
      if n > j - i {
        NoSpace(t[j - i]);
      }
      AllSkipped(t[n..]);
      assert t[..n] == c[i..j];
    } else {
      AllSkipped(c);
      assert t[n..] == "" && t[..n] == c[i..j];
      AllSkipped(t[n..]);
    }
  }

  lemma {:induction false} Skipped(s: string)
    ensures var r := SkipSpace(s);
            && |r| <= |s| && r == s[|s| - |r|..] && (|r| > 0 ==> !IsSpace(r[0]))
            && forall i | 0 <= i < |s| - |r| :: IsSpace(s[i])
  {
    hide IsSpace;
    if |s| > 0 && IsSpace(s[0]) {
      Skipped(s[1..]);
    }
  }

  lemma AllSkipped(s: string)
    requires forall i | 0 <= i < |s| :: IsSpace(s[i])
    ensures SkipSpace(s) == ""
  {
    hide IsSpace, SkipSpace;
    Skipped(s);
  }

  /** The alphabet: digits, capital and small letters, but not the digit 0 and the letters O, I and l. */
  lemma AlphabetExactly(c: char)
    ensures InAlphabet(c) <==>
              && ('1' <= c <= '9' || 'A' <= c <= 'Z' || 'a' <= c <= 'z')
              && c != 'O' && c != 'I' && c != 'l'
  {
    hide Letter, PlaceFrom;
    if InAlphabet(c) {
      LetterIs(Place(c));
    }
    if ('1' <= c <= '9' || 'A' <= c <= 'Z' || 'a' <= c <= 'z') && c != 'O' && c != 'I' && c != 'l' {
      var n := c as int;
      var d := if n < 58 then n - 49 else if n < 73 then n - 56 else if n < 79 then n - 57
               else if n < 91 then n - 58 else if n < 108 then n - 64 else n - 65;
      LetterIs(d);
      PlacedAt(c, d);
    }
  }

  function Ranged(d: nat): nat {
    if d < 9 then 49 + d else if d < 17 then 56 + d else if d < 22 then 57 + d
    else if d < 33 then 58 + d else if d < 44 then 64 + d else 65 + d
  }

  lemma LetterIs(d: nat)
    requires d < 58
    ensures Letter(d) as int == Ranged(d)
  {
  }

  lemma PlacedAt(c: char, d: nat)
    requires d < 58 && Letter(d) == c
    ensures InAlphabet(c)
  {
  }

  /** It ends before the first null character. */
  lemma {:induction false} CStringIs(s: string)
    ensures CString(s) <= s && '\0' !in CString(s) && (|CString(s)| < |s| ==> s[|CString(s)|] == '\0')
  {
    if |s| > 0 && s[0] != '\0' {
      CStringIs(s[1..]);
    }
  }

  /** Blanks are the space and the characters 9 to 13. */
  lemma SpaceExactly(c: char)
    ensures IsSpace(c) <==> c == ' ' || 9 <= c as int <= 13
  {
  }

  // ----- Checked strings

  /** A hash of 32 bytes. */
  type Octets32 = b: Octets | |b| == 32 witness Zeros(32)
  type Hash = Octets -> Octets32

  /** The bytes that carry their own check, without it. */
  function Checked(h: Hash, r: Octets): Option<Octets> {
    if |r| < 4 || h(r[..|r| - 4])[..4] != r[|r| - 4..] then None else Some(r[..|r| - 4])
  }

  function DecodedCheck(h: Hash, s: string): Option<Octets> {
    match Decoded(s)
    case None => None
    case Some(r) => Checked(h, r)
  }

  lemma CheckedExactly(h: Hash, r: Octets, v: Octets)
    ensures Checked(h, r) == Some(v) <==> r == v + h(v)[..4]
  {
    if r == v + h(v)[..4] {
      assert r[..|r| - 4] == v && r[|r| - 4..] == h(v)[..4];
    }
    if Checked(h, r) == Some(v) {
      assert r == r[..|r| - 4] + r[|r| - 4..];
    }
  }

  /** A string checks to bytes just when it is their checked code, but for blanks around it. */
  lemma DecodedCheckExactly(h: Hash, s: string, v: Octets)
    ensures DecodedCheck(h, s) == Some(v) <==> Core(s) == Some(Encode(v + h(v)[..4]))
  {
    hide Decoded, Core, Encode, Checked;
    match Decoded(s)
    case Some(r) =>
      CheckedExactly(h, r, v);
      DecodedExactly(s, r);
      DecodedExactly(s, v + h(v)[..4]);
    case None =>
      DecodedExactly(s, v + h(v)[..4]);
  }

  lemma CheckRoundTrip(h: Hash, v: Octets)
    ensures DecodedCheck(h, Encode(v + h(v)[..4])) == Some(v)
  {
    hide Decoded, Encode, Checked;
    DecodeEncode(v + h(v)[..4]);
    CheckedExactly(h, v + h(v)[..4], v);
  }

  method EncodeBase58Check(h: Hash, vchIn: Octets) returns (str: string)
    ensures str == EncodeAny(vchIn + h(vchIn)[..4])
    ensures Encodable(vchIn + h(vchIn)[..4]) <==> str == Encode(vchIn + h(vchIn)[..4])
  {
    hide Encode, EncodeAny, Encodable;
    var vch := vchIn;
    var hash := h(vchIn);
    vch := vch + hash[..4];
    str := EncodeBase58(vch);
  }

  method DecodeBase58Check(h: Hash, s: string) returns (ok: bool, vchRet: Octets)
    ensures if ok then DecodedCheck(h, s) == Some(vchRet) else DecodedCheck(h, s) == None && vchRet == []
  {
    hide Decoded;
    ok, vchRet := DecodeBase58(s);
    if !ok {
      return;
    }
    if |vchRet| < 4 {
      return false, [];
    }
    var hash := h(vchRet[..|vchRet| - 4]);
    if hash[..4] != vchRet[|vchRet| - 4..] {
      return false, [];
    }
    vchRet := vchRet[..|vchRet| - 4];
  }

  /** The base class of all base58-encoded data. */
  class CBase58Data {
    var nVersion: nat
    var vchData: Octets
    const h: Hash

    ghost predicate Valid()
      reads this
    {
      nVersion < 256
    }

    constructor (h: Hash)
        ensures Valid() && nVersion == 0 && vchData == [] && this.h == h
    {
      this.h := h;
      nVersion, vchData := 0, [];
    }

    method SetData(nVersionIn: int, data: Octets)
      requires Valid()
      modifies this
      ensures Valid() && nVersion == nVersionIn % 256 && vchData == data
    {
      nVersion, vchData := nVersionIn % 256, data;
    }

    /** Takes a string that checks to at least a version byte, and is cleared by any other. */
    method SetString(s: string) returns (ok: bool)
      requires Valid()
      modifies this
      ensures Valid()
      ensures ok <==> DecodedCheck(h, s).Some? && DecodedCheck(h, s).value != []
      ensures if ok then [nVersion] + vchData == DecodedCheck(h, s).value else nVersion == 0 && vchData == []
    {
      hide DecodedCheck;
      var _, vchTemp := DecodeBase58Check(h, s);
      if vchTemp == [] {
        vchData, nVersion := [], 0;
        return false;
      }
      nVersion := vchTemp[0];
      vchData := vchTemp[1..];
      assert [nVersion] + vchData == vchTemp;
      ok := true;
    }

    method ToString() returns (str: string)
      requires Valid()
      ensures str == EncodeAny([nVersion] + vchData + h([nVersion] + vchData)[..4])
      ensures Encodable([nVersion] + vchData + h([nVersion] + vchData)[..4]) <==> str == Encode([nVersion] + vchData + h([nVersion] + vchData)[..4])
    {
      hide Encode, EncodeAny, Encodable;
      var vch := [nVersion];
      vch := vch + vchData;
      str := EncodeBase58Check(h, vch);
    }
  }

  /** What is written as a string is read back as it was, just when it is not too long. */
  method StringRoundTrip(a: CBase58Data) returns (b: CBase58Data, ok: bool)
    requires a.Valid()
    ensures fresh(b)
    ensures ok && b.nVersion == a.nVersion && b.vchData == a.vchData
            <==> Encodable([a.nVersion] + a.vchData + a.h([a.nVersion] + a.vchData)[..4])
  {
    hide DecodedCheck, Encode, EncodeAny, Encodable, Core;
    var str := a.ToString();
    ghost var v := [a.nVersion] + a.vchData;
    AnyCore(v + a.h(v)[..4]);
    DecodedCheckExactly(a.h, str, v);
    b := new CBase58Data(a.h);
    ok := b.SetString(str);
    ghost var u := [b.nVersion] + b.vchData;
    assert u == v ==> u[0] == v[0] && u[1..] == v[1..];
    assert u[1..] == b.vchData && v[1..] == a.vchData;
  }

  /** What is encoded is all core. */
  lemma AnyCore(b: Octets)
    ensures Core(EncodeAny(b)) == Some(EncodeAny(b))
  {
    hide Place, Core, Loaded, Digits;
    PlacesOfLetters(Zeros(ZeroCount(b)) + Digits(58, Loaded(b)));
    CoreOfLetters(EncodeAny(b));
  }
}
