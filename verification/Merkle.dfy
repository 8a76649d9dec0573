/** The Merkle tree of a block: a flat array of levels, branches out of it and their check. */
module Merkle {
  import opened Basics

  type PairHash = (Uint256, Uint256) -> Uint256

  // ----- The tree

  /** The width of level `d` over `n` leaves. */
  function Width(n: nat, d: nat): (w: nat)
    ensures n > 0 ==> w > 0
  {
    if d == 0 then n else (Width(n, d - 1) + 1) / 2
  }

  /** Node `i` of level `d`: the hash of its two children, the last one standing twice
      when a level is odd. */
  function Node(h: PairHash, leaves: seq<Uint256>, d: nat, i: nat): Uint256
    requires i < Width(|leaves|, d)
  {
    if d == 0 then leaves[i]
    else
      var last := Width(|leaves|, d - 1) - 1;
      h(Node(h, leaves, d - 1, 2 * i), Node(h, leaves, d - 1, Min(2 * i + 1, last)))
  }

  /** The level at which one node is left. */
  function Depth(n: nat): nat {
    if n <= 1 then 0 else 1 + Depth((n + 1) / 2)
  }

  /** The level above a list of nodes. */
  function Above(h: PairHash, s: seq<Uint256>): (r: seq<Uint256>)
    ensures |r| == (|s| + 1) / 2
  {
    seq((|s| + 1) / 2, k requires 0 <= k < (|s| + 1) / 2 => h(s[2 * k], s[Min(2 * k + 1, |s| - 1)]))
  }

  lemma AboveAt(h: PairHash, s: seq<Uint256>, k: nat)
    requires 2 * k < |s|
    ensures Above(h, s)[k] == h(s[2 * k], s[Min(2 * k + 1, |s| - 1)])
  {
  }

  /** All the levels from `s` up, one after the other. */
  function Tree(h: PairHash, s: seq<Uint256>): seq<Uint256>
    decreases |s|
  {
    if |s| <= 1 then s else s + Tree(h, Above(h, s))
  }

  function Root(h: PairHash, s: seq<Uint256>): Uint256
    requires |s| > 0
    decreases |s|
  {
    if |s| == 1 then s[0] else Root(h, Above(h, s))
  }

  lemma {:induction false} RootIsLast(h: PairHash, s: seq<Uint256>)
    requires |s| > 0
    ensures |Tree(h, s)| > 0 && Tree(h, s)[|Tree(h, s)| - 1] == Root(h, s)
    decreases |s|
  {
    if |s| > 1 {
      RootIsLast(h, Above(h, s));
    }
  }

  lemma {:induction false} WidthAbove(n: nat, d: nat)
    ensures Width((n + 1) / 2, d) == Width(n, d + 1)
  {
    if d > 0 {
      WidthAbove(n, d - 1);
    }
  }

  lemma NodeStep(h: PairHash, s: seq<Uint256>, d: nat, i: nat)
    requires d > 0 && i < Width(|s|, d)
    ensures Width(|s|, d) == (Width(|s|, d - 1) + 1) / 2
    ensures var last := Width(|s|, d - 1) - 1;
            && 0 <= 2 * i <= last && 0 <= Min(2 * i + 1, last) <= last
            && Node(h, s, d, i) == h(Node(h, s, d - 1, 2 * i), Node(h, s, d - 1, Min(2 * i + 1, last)))
  {
  }

  lemma NodeLeaf(h: PairHash, s: seq<Uint256>, i: nat)
    requires i < |s|
    ensures Width(|s|, 0) == |s| && Node(h, s, 0, i) == s[i]
  {
  }

  lemma {:induction false} NodeAbove(h: PairHash, s: seq<Uint256>, d: nat, i: nat)
    requires i < Width(|s|, d + 1)
    ensures i < Width((|s| + 1) / 2, d) && Node(h, Above(h, s), d, i) == Node(h, s, d + 1, i)
  {
    hide Above, Min, Width, Node;
    WidthAbove(|s|, d);
    NodeStep(h, s, d + 1, i);
    if d == 0 {
      WidthZero(|s|);
      NodeLeaf(h, s, 2 * i);
      NodeLeaf(h, s, Min(2 * i + 1, |s| - 1));
      NodeLeaf(h, Above(h, s), i);
      AboveAt(h, s, i);
    } else {
      NodeStep(h, Above(h, s), d, i);
      WidthAbove(|s|, d - 1);
      NodeAbove(h, s, d - 1, 2 * i);
      NodeAbove(h, s, d - 1, Min(2 * i + 1, Width(|s|, d) - 1));
    }
  }

  /** The last entry of the array is the top node of the tree. */
  lemma {:induction false} RootIsTop(h: PairHash, s: seq<Uint256>)
    requires |s| > 0
    ensures Width(|s|, Depth(|s|)) == 1 && Root(h, s) == Node(h, s, Depth(|s|), 0)
    decreases |s|
  {
    if |s| > 1 {
      RootIsTop(h, Above(h, s));
      WidthAbove(|s|, Depth((|s| + 1) / 2));
      NodeAbove(h, s, Depth((|s| + 1) / 2), 0);
    }
  }

  /** Where a level starts in the array. */
  function Start(n: nat, d: nat): nat {
    if d == 0 then 0 else Start(n, d - 1) + Width(n, d - 1)
  }

  lemma WidthZero(n: nat)
    ensures Width(n, 0) == n
  {
  }

  lemma StartZero(n: nat)
    ensures Start(n, 0) == 0
  {
  }

  lemma {:induction false} StartAbove(n: nat, d: nat)
    ensures Start(n, d + 1) == n + Start((n + 1) / 2, d)
  {
    if d > 0 {
      StartAbove(n, d - 1);
      WidthAbove(n, d - 1);
    }
  }

  /** Entry `Start + i` of the array is node `i` of its level. */
  lemma {:induction false} TreeHoldsNodes(h: PairHash, s: seq<Uint256>, d: nat, i: nat)
    requires |s| > 0 && d <= Depth(|s|) && i < Width(|s|, d)
    ensures Start(|s|, d) + i < |Tree(h, s)| && Tree(h, s)[Start(|s|, d) + i] == Node(h, s, d, i)
    decreases |s|
  {
    hide Above, Width, Start, Node;
    if d == 0 {
      WidthZero(|s|);
      NodeLeaf(h, s, i);
      StartZero(|s|);
    } else {
      var up := Above(h, s);
      StartAbove(|s|, d - 1);
      WidthAbove(|s|, d - 1);
      NodeAbove(h, s, d - 1, i);
      TreeHoldsNodes(h, up, d - 1, i);
    }
  }

  // ----- Branches

  /** `i ^ 1`. */
  function Sibling(i: nat): nat {
    if i % 2 == 0 then i + 1 else i - 1
  }

  function Branch(h: PairHash, s: seq<Uint256>, i: nat): seq<Uint256>
    decreases |s|
  {
    if |s| <= 1 then [] else [s[Min(Sibling(i), |s| - 1)]] + Branch(h, Above(h, s), i / 2)
  }

  function Up(h: PairHash, leaf: Uint256, side: Uint256, i: int): Uint256 {
    if i % 2 == 1 then h(side, leaf) else h(leaf, side)
  }

  /** What a branch makes of a leaf at index `i`. */
  function Climb(h: PairHash, leaf: Uint256, branch: seq<Uint256>, i: int): Uint256
    decreases |branch|
  {
    if |branch| == 0 then leaf
    else Climb(h, Up(h, leaf, branch[0], i), branch[1..], i / 2)
  }

  lemma ClimbOne(h: PairHash, s: seq<Uint256>, i: nat)
    requires i < |s| && |s| > 1
    ensures Up(h, s[i], s[Min(Sibling(i), |s| - 1)], i) == Above(h, s)[i / 2]
  {
    hide Above;
    AboveAt(h, s, i / 2);
  }

  /** A leaf climbs by its branch to the root. */
  lemma {:induction false} BranchReachesRoot(h: PairHash, s: seq<Uint256>, i: nat)
    requires i < |s|
    ensures Climb(h, s[i], Branch(h, s, i), i) == Root(h, s)
    decreases |s|
  {
    hide Above, Min, Sibling;
    if |s| > 1 {
      var up := Above(h, s);
      var rest := Branch(h, up, i / 2);
      ClimbOne(h, s, i);
      assert Branch(h, s, i)[1..] == rest;
      BranchReachesRoot(h, up, i / 2);
    }
  }

  lemma {:induction false} BranchLength(h: PairHash, s: seq<Uint256>, i: nat)
    ensures |Branch(h, s, i)| == Depth(|s|)
    decreases |s|
  {
    if |s| > 1 {
      BranchLength(h, Above(h, s), i / 2);
    }
  }

  // ----- What a branch proves

  /** Two different pairs with the same hash. */
  datatype Clash = Clash(a: Uint256, b: Uint256, c: Uint256, d: Uint256) {
    ghost predicate Collides(h: PairHash) {
      (a != c || b != d) && h(a, b) == h(c, d)
    }
  }

  /** The first level at which two climbs that part at the bottom come together. */
  function FindClash(h: PairHash, x: Uint256, p: seq<Uint256>, y: Uint256, q: seq<Uint256>, i: int): Clash
    requires |p| == |q|
    decreases |p|
  {
    if |p| == 0 then Clash(x, x, y, y)
    else if Up(h, x, p[0], i) == Up(h, y, q[0], i) then
      if i % 2 == 1 then Clash(p[0], x, q[0], y) else Clash(x, p[0], y, q[0])
    else FindClash(h, Up(h, x, p[0], i), p[1..], Up(h, y, q[0], i), q[1..], i / 2)
  }

  /** Two leaves that climb to one root from the same index give a collision of the hash. */
  lemma {:induction false} TwoLeavesClash(h: PairHash, x: Uint256, p: seq<Uint256>, y: Uint256, q: seq<Uint256>, i: int)
    requires x != y && |p| == |q| && Climb(h, x, p, i) == Climb(h, y, q, i)
    ensures FindClash(h, x, p, y, q, i).Collides(h)
    decreases |p|
  {
    if |p| > 0 && Up(h, x, p[0], i) != Up(h, y, q[0], i) {
      TwoLeavesClash(h, Up(h, x, p[0], i), p[1..], Up(h, y, q[0], i), q[1..], i / 2);
    }
  }

  /** Without a collision, a branch as long as the tree is deep that climbs from index `i`
      to the root starts at leaf `i`. */
  lemma BranchProvesLeaf(h: PairHash, s: seq<Uint256>, i: nat, leaf: Uint256, branch: seq<Uint256>)
    requires i < |s| && |branch| == Depth(|s|) && Climb(h, leaf, branch, i) == Root(h, s)
    ensures |Branch(h, s, i)| == |branch|
    ensures leaf == s[i] || FindClash(h, leaf, branch, s[i], Branch(h, s, i), i).Collides(h)
  {
    BranchReachesRoot(h, s, i);
    BranchLength(h, s, i);
    if leaf != s[i] {
      TwoLeavesClash(h, leaf, branch, s[i], Branch(h, s, i), i);
    }
  }

  /** The branches of two lists at index `i` meet in a collision. */
  ghost predicate ClashAt(h: PairHash, s: seq<Uint256>, t: seq<Uint256>, i: nat) {
    && i < |s| && i < |t| && |Branch(h, s, i)| == |Branch(h, t, i)|
    && FindClash(h, s[i], Branch(h, s, i), t[i], Branch(h, t, i), i).Collides(h)
  }

  ghost predicate TreesClash(h: PairHash, s: seq<Uint256>, t: seq<Uint256>) {
    exists i: nat :: ClashAt(h, s, t, i)
  }

  /** Two lists of the same length with one root give a collision. */
  lemma SameLengthRootsClash(h: PairHash, s: seq<Uint256>, t: seq<Uint256>)
    requires |s| == |t| > 0 && s != t && Root(h, s) == Root(h, t)
    ensures TreesClash(h, s, t)
  {
    var i: nat :| i < |s| && s[i] != t[i];
    BranchReachesRoot(h, s, i);
    BranchReachesRoot(h, t, i);
    BranchLength(h, s, i);
    BranchLength(h, t, i);
    TwoLeavesClash(h, s[i], Branch(h, s, i), t[i], Branch(h, t, i), i);
    assert ClashAt(h, s, t, i);
  }

  /** A root says which list of `n` leaves it is of, when the other list has `m` leaves: unless
      the two trees show a collision of the hash. */
  ghost predicate RootTells(h: PairHash, m: nat, n: nat)
    requires m > 0 && n > 0
  {
    forall s: seq<Uint256>, t: seq<Uint256> | |s| == m && |t| == n && Root(h, s) == Root(h, t) ::
      s == t || TreesClash(h, s, t)
  }

  /** The root tells lists apart just when their lengths agree, whatever the hash. */
  lemma RootTellsSameLength(h: PairHash, m: nat, n: nat)
    requires m > 0 && n > 0
    ensures RootTells(h, m, n) <==> m == n
  {
    if m == n {
      forall s: seq<Uint256>, t: seq<Uint256> | |s| == m && |t| == n && Root(h, s) == Root(h, t) && s != t
        ensures TreesClash(h, s, t)
      {
        SameLengthRootsClash(h, s, t);
      }
    } else {
      var s, t := OneRootTwoLengths(h, m, n);
    }
  }

  /** For any hash and any two different lengths there are lists of these lengths with one root
      and no collision between their branches. */
  lemma OneRootTwoLengths(h: PairHash, m: nat, n: nat) returns (s: seq<Uint256>, t: seq<Uint256>)
    requires 0 < m && 0 < n && m != n
    ensures |s| == m && |t| == n && Root(h, s) == Root(h, t) && !TreesClash(h, s, t)
  {
    hide Root, Power, Branch, FindClash;
    var c, d := Depth(m), Depth(n);
    var a, b := if c < d then d - c else 0, if d < c then c - d else 0;
    var x, y := Power(h, 0, a), Power(h, 0, b);
    s, t := Copies(x, m), Copies(y, n);
    RootOfCopies(h, x, m);
    RootOfCopies(h, y, n);
    PowerSum(h, 0, a, c);
    PowerSum(h, 0, b, d);
    forall i: nat | i < m && i < n
      ensures !ClashAt(h, s, t, i)
    {
      BranchLength(h, s, i);
      BranchLength(h, t, i);
      if c == d {
        BranchOfCopies(h, x, m, n, i, i);
        NoClash(h, x, Branch(h, s, i), i);
      }
    }
  }

  lemma NoClash(h: PairHash, x: Uint256, p: seq<Uint256>, i: int)
    ensures !FindClash(h, x, p, x, p, i).Collides(h)
  {
  }

  function Copies(x: Uint256, n: nat): (r: seq<Uint256>)
    ensures |r| == n && forall i | 0 <= i < n :: r[i] == x
  {
    seq(n, i => x)
  }

  /** The hash of `x` with itself, `d` times over. */
  function Power(h: PairHash, x: Uint256, d: nat): Uint256
    decreases d
  {
    if d == 0 then x else Power(h, h(x, x), d - 1)
  }

  lemma {:induction false} PowerSum(h: PairHash, x: Uint256, a: nat, b: nat)
    ensures Power(h, Power(h, x, a), b) == Power(h, x, a + b)
    decreases a
  {
    if a > 0 {
      PowerSum(h, h(x, x), a - 1, b);
    }
  }

  lemma AboveCopies(h: PairHash, x: Uint256, n: nat)
    ensures Above(h, Copies(x, n)) == Copies(h(x, x), (n + 1) / 2)
  {
    hide Copies;
  }

  lemma {:induction false} RootOfCopies(h: PairHash, x: Uint256, n: nat)
    requires n > 0
    ensures Root(h, Copies(x, n)) == Power(h, x, Depth(n))
    decreases n
  {
    hide Above, Copies;
    if n > 1 {
      AboveCopies(h, x, n);
      RootOfCopies(h, h(x, x), (n + 1) / 2);
    }
  }

  lemma {:induction false} BranchOfCopies(h: PairHash, x: Uint256, m: nat, n: nat, i: nat, j: nat)
    requires m > 0 && n > 0 && Depth(m) == Depth(n)
    ensures Branch(h, Copies(x, m), i) == Branch(h, Copies(x, n), j)
    decreases m
  {
    hide Above, Copies;
    if m > 1 {
      assert n > 1;
      AboveCopies(h, x, m);
      AboveCopies(h, x, n);
      BranchOfCopies(h, h(x, x), (m + 1) / 2, (n + 1) / 2, i / 2, j / 2);
    }
  }

  /** One way to get such lists: an odd list and the same list with its last leaf once more have
      the same root. */
  lemma RootForgetsLength(h: PairHash, s: seq<Uint256>)
    requires |s| > 1 && |s| % 2 == 1
    ensures Root(h, s + [s[|s| - 1]]) == Root(h, s)
  {
    hide Above;
    var t := s + [s[|s| - 1]];
    assert |Above(h, t)| == |Above(h, s)|;
    forall k | 0 <= k < |Above(h, s)|
      ensures Above(h, t)[k] == Above(h, s)[k]
    {
      AboveAt(h, t, k);
      AboveAt(h, s, k);
    }
    assert Above(h, t) == Above(h, s);
  }

  // ----- The block

  lemma MinBelow(a: int, b: int)
    ensures Min(a, b) <= a && Min(a, b) <= b && (Min(a, b) == a || Min(a, b) == b)
  {
  }

  /** `v` holds the levels below `level`, and then `level`, from `j` on. */
  ghost predicate Built(h: PairHash, v: seq<Uint256>, j: int, level: seq<Uint256>, leaves: seq<Uint256>) {
    0 <= j <= |v| && v[j..] == level && v[..j] + Tree(h, level) == Tree(h, leaves)
  }

  lemma BuiltNext(h: PairHash, v: seq<Uint256>, j: int, level: seq<Uint256>, leaves: seq<Uint256>)
    requires Built(h, v, j, level, leaves) && |level| > 1
    ensures Built(h, v + Above(h, level), j + |level|, Above(h, level), leaves)
  {
    hide Above;
    var v', up := v + Above(h, level), Above(h, level);
    assert v'[..j + |level|] == v[..j] + level;
    assert v[..j] + (level + Tree(h, up)) == v[..j] + level + Tree(h, up);
  }

  class CBlock {
    /** The hashes of the transactions. */
    var vtx: seq<Uint256>
    var vMerkleTree: seq<Uint256>
    const h: PairHash

    ghost predicate Valid()
      reads this
    {
      vMerkleTree == [] || vMerkleTree == Tree(h, vtx)
    }

    constructor (h: PairHash, vtx: seq<Uint256>)
      ensures Valid() && this.h == h && this.vtx == vtx
    {
      this.h := h;
      this.vtx := vtx;
      vMerkleTree := [];
    }

    method BuildMerkleTree() returns (root: Uint256)
      modifies this`vMerkleTree
      ensures vMerkleTree == Tree(h, vtx)
      ensures root == if |vtx| == 0 then 0 else Root(h, vtx)
    {
      hide Above, Min;
      vMerkleTree := vtx;
      ghost var level := vtx;
      var j, nSize := 0, |vtx|;
      while nSize > 1
        invariant nSize == |level| && Built(h, vMerkleTree, j, level, vtx)
        decreases nSize
      {
        ghost var before := vMerkleTree;
        var i := 0;
        while i < nSize
          invariant 0 <= i <= nSize + 1 && i % 2 == 0
          invariant vMerkleTree == before + Above(h, level)[..i / 2]
        {
          var i2 := Min(i + 1, nSize - 1);
          MinBelow(i + 1, nSize - 1);
          AboveAt(h, level, i / 2);
          assert vMerkleTree[j + i] == before[j..][i] && vMerkleTree[j + i2] == before[j..][i2];
          vMerkleTree := vMerkleTree + [h(vMerkleTree[j + i], vMerkleTree[j + i2])];
          i := i + 2;
        }
        assert Above(h, level)[..i / 2] == Above(h, level);
        BuiltNext(h, before, j, level, vtx);
        level := Above(h, level);
        j := j + nSize;
        nSize := (nSize + 1) / 2;
      }
      assert vMerkleTree == vMerkleTree[..j] + level;
      if |vtx| > 0 {
        RootIsLast(h, vtx);
      }
      root := if vMerkleTree == [] then 0 else vMerkleTree[|vMerkleTree| - 1];
    }

    method GetMerkleBranch(nIndex: nat) returns (vMerkleBranch: seq<Uint256>)
      requires Valid()
      modifies this`vMerkleTree
      ensures Valid()
      ensures vMerkleBranch == Branch(h, vtx, nIndex)
    {
      hide Above, Min, Sibling, Tree;
      if vMerkleTree == [] {
        var _ := BuildMerkleTree();
      }
      vMerkleBranch := [];
      ghost var level := vtx;
      var j, nSize, n := 0, |vtx|, nIndex;
      while nSize > 1
        invariant nSize == |level| && 0 <= j <= |vMerkleTree| && n >= 0
        invariant vMerkleTree == Tree(h, vtx) && vMerkleTree[j..] == Tree(h, level)
        invariant vMerkleBranch + Branch(h, level, n) == Branch(h, vtx, nIndex)
        decreases nSize
      {
        var i := Min(Sibling(n), nSize - 1);
        SiblingBelow(n, nSize);
        TreeFrom(h, vMerkleTree, j, level);
        BranchStep(h, vMerkleBranch, level, n);
        vMerkleBranch := vMerkleBranch + [vMerkleTree[j + i]];
        level := Above(h, level);
        n := n / 2;
        j := j + nSize;
        nSize := (nSize + 1) / 2;
      }
      assert vMerkleBranch + [] == vMerkleBranch;
    }
  }

  lemma SiblingBelow(n: nat, nSize: nat)
    requires nSize > 1
    ensures 0 <= Min(Sibling(n), nSize - 1) < nSize
  {
  }

  lemma TreeFrom(h: PairHash, v: seq<Uint256>, j: nat, level: seq<Uint256>)
    requires j <= |v| && v[j..] == Tree(h, level) && |level| > 1
    ensures j + |level| <= |v| && v[j + |level|..] == Tree(h, Above(h, level))
    ensures forall i | 0 <= i < |level| :: v[j + i] == level[i]
  {
    hide Above;
    assert v[j + |level|..] == v[j..][|level|..];
    forall i | 0 <= i < |level|
      ensures v[j + i] == level[i]
    {
      assert v[j + i] == v[j..][i];
    }
  }

  lemma BranchStep(h: PairHash, taken: seq<Uint256>, level: seq<Uint256>, n: nat)
    requires |level| > 1
    ensures 0 <= Min(Sibling(n), |level| - 1) < |level|
    ensures taken + [level[Min(Sibling(n), |level| - 1)]] + Branch(h, Above(h, level), n / 2) == taken + Branch(h, level, n)
  {
    hide Above;
  }

  method CheckMerkleBranch(h: PairHash, hash: Uint256, vMerkleBranch: seq<Uint256>, nIndex: int) returns (r: Uint256)
    ensures r == if nIndex == -1 then 0 else Climb(h, hash, vMerkleBranch, nIndex)
  {
    if nIndex == -1 {
      return 0;
    }
    r := hash;
    var n, k := nIndex, 0;
    while k < |vMerkleBranch|
      invariant 0 <= k <= |vMerkleBranch|
      invariant Climb(h, r, vMerkleBranch[k..], n) == Climb(h, hash, vMerkleBranch, nIndex)
    {
      var otherside := vMerkleBranch[k];
      assert vMerkleBranch[k..][1..] == vMerkleBranch[k + 1..];
      if n % 2 == 1 {
        r := h(otherside, r);
      } else {
        r := h(r, otherside);
      }
      n := n / 2;
      k := k + 1;
    }
  }

  /** The branch of a transaction of the block checks out to the root of its tree. */
  method CheckOwnBranch(b: CBlock, nIndex: nat) returns (root: Uint256, checked: Uint256)
    requires nIndex < |b.vtx|
    modifies b`vMerkleTree
    ensures checked == root == Node(b.h, b.vtx, Depth(|b.vtx|), 0)
  {
    root := b.BuildMerkleTree();
    var branch := b.GetMerkleBranch(nIndex);
    checked := CheckMerkleBranch(b.h, b.vtx[nIndex], branch, nIndex);
    BranchReachesRoot(b.h, b.vtx, nIndex);
    RootIsTop(b.h, b.vtx);
  }
}
