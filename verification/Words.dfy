/** Machine words as their bits, the least significant first. */
module Words {

  type Bits = seq<bool>
  type Word64 = a: Bits | |a| == 64 witness seq(64, z => false)

  function Xor(a: Bits, b: Bits): (r: Bits)
    requires |a| == |b|
    ensures |r| == |a| && forall z | 0 <= z < |a| :: r[z] == (a[z] != b[z])
  {
    seq(|a|, z requires 0 <= z < |a| => a[z] != b[z])
  }

  function And(a: Bits, b: Bits): (r: Bits)
    requires |a| == |b|
    ensures |r| == |a| && forall z | 0 <= z < |a| :: r[z] == (a[z] && b[z])
  {
    seq(|a|, z requires 0 <= z < |a| => a[z] && b[z])
  }

  function Or(a: Bits, b: Bits): (r: Bits)
    requires |a| == |b|
    ensures |r| == |a| && forall z | 0 <= z < |a| :: r[z] == (a[z] || b[z])
  {
    seq(|a|, z requires 0 <= z < |a| => a[z] || b[z])
  }

  function Not(a: Bits): (r: Bits)
    ensures |r| == |a| && forall z | 0 <= z < |a| :: r[z] == !a[z]
  {
    seq(|a|, z requires 0 <= z < |a| => !a[z])
  }

  /** The shift `a << n`, truncated to the width of the word. */
  function Shl(a: Bits, n: nat): (r: Bits)
    ensures |r| == |a| && forall z | 0 <= z < |a| :: r[z] == (n <= z && a[z - n])
  {
    seq(|a|, z requires 0 <= z < |a| => n <= z && a[z - n])
  }

  function Shr(a: Bits, n: nat): (r: Bits)
    ensures |r| == |a| && forall z | 0 <= z < |a| :: r[z] == (z + n < |a| && a[z + n])
  {
    seq(|a|, z requires 0 <= z < |a| => z + n < |a| && a[z + n])
  }

  /** Rotation to the left, as the code does it with two shifts. */
  function Rotl(a: Bits, n: nat): (r: Bits)
    requires n <= |a|
    ensures |r| == |a|
    ensures forall z | 0 <= z < |a| :: r[z] == if n <= z then a[z - n] else a[z + |a| - n]
  {
    Or(Shl(a, n), Shr(a, |a| - n))
  }
}
