/** Block locators: a list of hashes, exponentially sparser going back, from which another
    node finds the fork with its own main chain. */
module Locator {
  import opened Basics
  import opened BlockTree
  import Modular

  // ----- What a locator holds

  /** The number of blocks that entry `k` is above the next entry. */
  function Step(k: nat): (s: nat)
    ensures s >= 1
  {
    if k <= 10 then 1 else 2 * Step(k - 1)
  }

  /** How far entry `k` is below the block the locator was built from. */
  function Off(k: nat): nat {
    if k == 0 then 0 else Off(k - 1) + Step(k - 1)
  }

  lemma {:induction false} StepIs(k: nat)
    ensures Step(k) == if k <= 10 then 1 else Modular.Pow2(k - 10)
  {
    if k > 10 {
      StepIs(k - 1);
    }
  }

  lemma {:induction false} OffIs(k: nat)
    ensures Off(k) == if k <= 11 then k else 9 + Modular.Pow2(k - 10)
    ensures k == 11 ==> Modular.Pow2(1) == 2
  {
    if k > 0 {
      OffIs(k - 1);
      StepIs(k - 1);
    }
    if k >= 11 {
      assert Modular.Pow2(k - 10) == 2 * Modular.Pow2(k - 11);
      assert Modular.Pow2(0) == 1 && Modular.Pow2(1) == 2;
    }
  }

  lemma {:induction false} OffGrows(j: nat, k: nat)
    requires j < k
    ensures Off(j) < Off(k)
  {
    if j < k - 1 {
      OffGrows(j, k - 1);
    }
  }

  /** The hashes from entry `k` on, `b` being what entry `k` points to. */
  function Hashes(b: Pointer, k: nat): seq<Uint256>
    decreases b
  {
    if b.Null? then []
    else
      BackSmaller(b, Step(k));
      [b.hash] + Hashes(Back(b, Step(k)), k + 1)
  }

  lemma {:induction false} BackSmaller(b: Index, n: nat)
    requires n >= 1
    ensures Back(b, n) < b
  {
    if n > 1 && b.pprev.Block? {
      BackSmaller(b.pprev, n - 1);
    } else if b.pprev.Null? {
      BackNull(n - 1);
    }
  }

  /** Entry `i` is the hash of the block `Off(i)` back, and there are as many entries as fit. */
  lemma {:induction false} HashesAt(b: Index, k: nat, i: nat)
    requires k <= i
    ensures var n := i - k;
            && (n < |Hashes(Back(b, Off(k)), k)| <==> Off(i) <= Height(b))
            && (Off(i) <= Height(b) ==> Back(b, Off(i)).Block? && Hashes(Back(b, Off(k)), k)[n] == Back(b, Off(i)).hash)
    decreases i - k
  {
    BackHeight(b, Off(k));
    if k < i {
      OffGrows(k, i);
      if Off(k) <= Height(b) {
        BackBack(b, Off(k), Step(k));
        HashesAt(b, k + 1, i);
      }
    }
  }

  class CBlockLocator {
    var vHave: seq<Uint256>

    constructor (hashGenesis: Uint256, pindex: Pointer)
      ensures vHave == Hashes(pindex, 0) + [hashGenesis]
    {
      vHave := [];
      new;
      Set(hashGenesis, pindex);
    }

    method Set(hashGenesis: Uint256, pindex: Pointer)
      modifies this
      ensures vHave == Hashes(pindex, 0) + [hashGenesis]
    {
      vHave := [];
      var nStep, p := 1, pindex;
      while p.Block?
        invariant nStep == Step(|vHave|)
        invariant vHave + Hashes(p, |vHave|) == Hashes(pindex, 0)
        decreases p
      {
        ghost var was, have := p, vHave;
        vHave := vHave + [p.hash];
        var i := 0;
        while p.Block? && i < nStep
          invariant 0 <= i <= nStep && vHave == have + [was.hash]
          invariant Back(p, nStep - i) == Back(was, nStep)
          decreases nStep - i
        {
          p := p.pprev;
          i := i + 1;
        }
        if p.Null? {
          BackNull(nStep - i);
        }
        BackSmaller(was, nStep);
        assert Hashes(was, |have|) == [was.hash] + Hashes(p, |have| + 1);
        if |vHave| > 10 {
          nStep := nStep * 2;
        }
      }
      assert vHave + [] == vHave;
      vHave := vHave + [hashGenesis];
    }

    /** The first entry that is in the index and in the main chain, if any. */
    ghost function First(index: map<Uint256, Index>, main: set<Uint256>): nat
      reads this
    {
      FirstIn(vHave, index, main)
    }

    /** The block of the first entry in the main chain, or the genesis block. */
    method GetBlockIndex(index: map<Uint256, Index>, main: set<Uint256>, genesis: Index) returns (r: Index)
      ensures var i := First(index, main); r == if i < |vHave| then index[vHave[i]] else genesis
    {
      for i := 0 to |vHave|
        invariant forall j | 0 <= j < i :: !Matches(vHave[j], index, main)
      {
        if vHave[i] in index && vHave[i] in main {
          FirstInIs(vHave, index, main, i);
          return index[vHave[i]];
        }
      }
      FirstInIs(vHave, index, main, |vHave|);
      r := genesis;
    }

    method GetBlockHash(index: map<Uint256, Index>, main: set<Uint256>, hashGenesis: Uint256) returns (r: Uint256)
      ensures var i := First(index, main); r == if i < |vHave| then vHave[i] else hashGenesis
    {
      for i := 0 to |vHave|
        invariant forall j | 0 <= j < i :: !Matches(vHave[j], index, main)
      {
        if vHave[i] in index && vHave[i] in main {
          FirstInIs(vHave, index, main, i);
          return vHave[i];
        }
      }
      FirstInIs(vHave, index, main, |vHave|);
      r := hashGenesis;
    }

    /** The distance that the replay of the steps gives is the true one of the entry found. */
    method GetDistanceBack(index: map<Uint256, Index>, main: set<Uint256>) returns (nDistance: nat)
      ensures nDistance == Off(First(index, main))
    {
      nDistance := 0;
      var nStep := 1;
      for i := 0 to |vHave|
        invariant forall j | 0 <= j < i :: !Matches(vHave[j], index, main)
        invariant nDistance == Off(i) && nStep == Step(i)
      {
        if vHave[i] in index && vHave[i] in main {
          FirstInIs(vHave, index, main, i);
          return;
        }
        nDistance := nDistance + nStep;
        OffIs(i + 1);
        if nDistance > 10 {
          nStep := nStep * 2;
        }
      }
      FirstInIs(vHave, index, main, |vHave|);
    }
  }

  predicate Matches(hash: Uint256, index: map<Uint256, Index>, main: set<Uint256>) {
    hash in index && hash in main
  }

  function FirstIn(v: seq<Uint256>, index: map<Uint256, Index>, main: set<Uint256>): (i: nat)
    ensures i <= |v|
    ensures i < |v| ==> Matches(v[i], index, main)
    ensures forall j | 0 <= j < i :: !Matches(v[j], index, main)
  {
    if |v| == 0 || Matches(v[0], index, main) then 0 else 1 + FirstIn(v[1..], index, main)
  }

  lemma FirstInIs(v: seq<Uint256>, index: map<Uint256, Index>, main: set<Uint256>, i: nat)
    requires i <= |v| && (i < |v| ==> Matches(v[i], index, main))
    requires forall j | 0 <= j < i :: !Matches(v[j], index, main)
    ensures FirstIn(v, index, main) == i
  {
  }

  // ----- Where a locator leads

  /** A hash stands for one block and all it leads back to. */
  ghost predicate Known(b: Index, index: map<Uint256, Index>) {
    (b.hash in index ==> index[b.hash] == b) && (b.pprev.Block? ==> Known(b.pprev, index))
  }

  /** The main chain holds what its blocks lead back to. */
  ghost predicate Closed(b: Index, main: set<Uint256>) {
    b.pprev.Block? ==> (b.hash in main ==> b.pprev.hash in main) && Closed(b.pprev, main)
  }

  /** `main` is the main chain of a node with the given index, and `b` a block that some node
      built on the same genesis block. */
  ghost predicate View(b: Index, index: map<Uint256, Index>, main: set<Uint256>, hashGenesis: Uint256) {
    && Origin(b).hash == hashGenesis && hashGenesis in main && main <= index.Keys
    && Known(b, index) && Closed(b, main)
  }

  lemma {:induction false} KnownBack(b: Index, index: map<Uint256, Index>, n: nat)
    requires Known(b, index) && n <= Height(b)
    ensures Back(b, n).Block? && (Back(b, n).hash in index ==> index[Back(b, n).hash] == Back(b, n))
  {
    if n > 0 {
      KnownBack(b.pprev, index, n - 1);
    }
  }

  /** How far back from `b` its last block in the main chain is. */
  function ForkBack(b: Index, main: set<Uint256>): (d: nat)
    ensures d <= Height(b)
  {
    if b.hash in main || b.pprev.Null? then 0 else 1 + ForkBack(b.pprev, main)
  }

  lemma {:induction false} BeforeFork(b: Index, main: set<Uint256>, n: nat)
    requires n < ForkBack(b, main)
    ensures Back(b, n).Block? && Back(b, n).hash !in main
  {
    if n > 0 {
      BeforeFork(b.pprev, main, n - 1);
    }
  }

  lemma {:induction false} AtFork(b: Index, main: set<Uint256>)
    requires Origin(b).hash in main
    ensures Back(b, ForkBack(b, main)).Block? && Back(b, ForkBack(b, main)).hash in main
  {
    if b.hash !in main && b.pprev.Block? {
      AtFork(b.pprev, main);
    }
  }

  /** The blocks of the branch that are in the main chain are those from the fork back. */
  lemma {:induction false} AfterFork(b: Index, main: set<Uint256>, n: nat)
    requires Closed(b, main) && Origin(b).hash in main && ForkBack(b, main) <= n <= Height(b)
    ensures Back(b, n).Block? && Back(b, n).hash in main
  {
    if n > 0 {
      AfterFork(b.pprev, main, n - 1);
    } else {
      AtFork(b, main);
    }
  }

  /** How far back the block is that a locator of `b` leads to: the offset of the entry found,
      or all the way when that is the appended genesis hash. */
  function Reach(b: Index, i: nat): nat {
    if Off(i) <= Height(b) then Off(i) else Height(b)
  }

  /** An entry matches just when it is at or behind the fork. */
  lemma EntryMatches(b: Index, index: map<Uint256, Index>, main: set<Uint256>, hashGenesis: Uint256, i: nat)
    requires View(b, index, main, hashGenesis) && Off(i) <= Height(b)
    ensures i < |Hashes(b, 0)| && Back(b, Off(i)).Block? && Hashes(b, 0)[i] == Back(b, Off(i)).hash
    ensures Matches(Hashes(b, 0)[i], index, main) <==> ForkBack(b, main) <= Off(i)
    ensures Matches(Hashes(b, 0)[i], index, main) ==> index[Hashes(b, 0)[i]] == Back(b, Off(i))
  {
    HashesAt(b, 0, i);
    KnownBack(b, index, Off(i));
    if ForkBack(b, main) <= Off(i) {
      AfterFork(b, main, Off(i));
    } else {
      BeforeFork(b, main, Off(i));
    }
  }

  /** Steps at most double: an entry behind the fork is not twice as far from `b`. */
  lemma Overshoot(i: nat, d: nat)
    requires i > 0 ==> Off(i - 1) < d
    requires d <= Off(i)
    ensures d <= 11 ==> Off(i) == d
    ensures d > 11 ==> Off(i) - d < d
  {
    OffIs(i);
    if i > 0 {
      OffIs(i - 1);
    }
    if i >= 12 {
      assert Modular.Pow2(i - 10) == 2 * Modular.Pow2(i - 11);
    }
  }

  /** The entry found is the first one at or behind the fork; it is the fork itself when that is
      at most 11 blocks back, and otherwise less far behind the fork than the fork is behind `b`. */
  lemma LocatorLeads(b: Index, index: map<Uint256, Index>, main: set<Uint256>, hashGenesis: Uint256)
    requires View(b, index, main, hashGenesis)
    ensures var v := Hashes(b, 0) + [hashGenesis];
            var i, d := FirstIn(v, index, main), ForkBack(b, main);
            && i < |v|
            && v[i] in index && index[v[i]] == Back(b, Reach(b, i))
            && d <= Reach(b, i)
            && (d <= 11 ==> Reach(b, i) == d)
            && (d > 11 ==> Reach(b, i) - d < d)
            && (i < |v| - 1 <==> Off(i) <= Height(b))
  {
    hide Hashes, FirstIn, View, ForkBack, Back, Height, Origin, Off;
    var s := Hashes(b, 0);
    var v := s + [hashGenesis];
    var i, d, h := FirstIn(v, index, main), ForkBack(b, main), Height(b);
    ViewGenesis(b, index, main, hashGenesis);
    assert Matches(v[|s|], index, main);
    HashesAt(b, 0, i);
    Back0(b);
    if Off(i) <= h {
      EntryMatches(b, index, main, hashGenesis, i);
    } else {
      assert i == |s|;
    }
    if i > 0 {
      HashesAt(b, 0, i - 1);
      assert !Matches(v[i - 1], index, main);
      EntryMatches(b, index, main, hashGenesis, i - 1);
    }
    Overshoot(i, d);
  }

  lemma Back0(b: Index)
    ensures Off(0) == 0 && Back(b, Off(0)) == b
  {
  }

  lemma ViewGenesis(b: Index, index: map<Uint256, Index>, main: set<Uint256>, hashGenesis: Uint256)
    requires View(b, index, main, hashGenesis)
    ensures Matches(hashGenesis, index, main)
    ensures index[hashGenesis] == Back(b, Height(b))
  {
    OriginIsLast(b);
    KnownBack(b, index, Height(b));
  }

  /** A locator of a block at height h has, for its length l >= 13, 9 + 2^(l - 12) <= h, so at
      most 12 + log2(h - 9) entries; and there is no room for another entry. */
  lemma LocatorLength(b: Index)
    ensures var l, h := |Hashes(b, 0)| + 1, Height(b);
            && (l >= 13 ==> 9 + Modular.Pow2(l - 12) <= h)
            && (l <= 11 ==> h == l - 2)
            && (l >= 12 ==> h < 9 + Modular.Pow2(l - 11))
  {
    var l := |Hashes(b, 0)| + 1;
    HashesAt(b, 0, 0);
    HashesAt(b, 0, l - 2);
    HashesAt(b, 0, l - 1);
    OffIs(l - 2);
    OffIs(l - 1);
  }

  /** Some entry other than the appended one is at or behind the fork. */
  ghost predicate HasOffset(b: Index, main: set<Uint256>) {
    exists k: nat :: ForkBack(b, main) <= Off(k) <= Height(b)
  }

  /** The replay gives the distance of the block found just when some offset lies between the fork
      and the genesis block; otherwise it gives too much. */
  lemma ReplayExact(b: Index, index: map<Uint256, Index>, main: set<Uint256>, hashGenesis: Uint256)
    requires View(b, index, main, hashGenesis)
    ensures var i := FirstIn(Hashes(b, 0) + [hashGenesis], index, main);
            && (Off(i) == Reach(b, i) <==> HasOffset(b, main))
            && (Off(i) != Reach(b, i) ==> Off(i) > Reach(b, i) == Height(b))
  {
    hide View, ForkBack, Height, Hashes, FirstIn, Off;
    var v := Hashes(b, 0) + [hashGenesis];
    var i := FirstIn(v, index, main);
    LocatorLeads(b, index, main, hashGenesis);
    if Off(i) <= Height(b) {
      assert ForkBack(b, main) <= Off(i) <= Height(b);
    } else {
      forall k: nat
        ensures !(ForkBack(b, main) <= Off(k) <= Height(b))
      {
        if k > i {
          OffGrows(i, k);
        } else if k < i && Off(k) <= Height(b) {
          EntryMatches(b, index, main, hashGenesis, k);
          assert v[k] == Hashes(b, 0)[k] && !Matches(v[k], index, main);
        }
      }
    }
  }

  /** A locator sent to another node: the block found there, and the distance it computes. That is
      the difference of the heights just when some offset lies between the fork and the genesis block. */
  method Exchange(b: Index, index: map<Uint256, Index>, main: set<Uint256>, genesis: Index)
    returns (found: Index, distance: nat)
    requires View(b, index, main, genesis.hash)
    ensures var r, d := Height(b) - Height(found), ForkBack(b, main);
            && d <= r <= Height(b) && found == Back(b, r)
            && (d <= 11 ==> r == d) && (d > 11 ==> r - d < d)
            && (distance == r <==> HasOffset(b, main))
            && (distance != r ==> found == Origin(b) && r == Height(b) < distance)
  {
    hide View, HasOffset, ForkBack, Hashes, Off;
    var locator := new CBlockLocator(genesis.hash, b);
    found := locator.GetBlockIndex(index, main, genesis);
    distance := locator.GetDistanceBack(index, main);
    LocatorLeads(b, index, main, genesis.hash);
    ReplayExact(b, index, main, genesis.hash);
    OriginIsLast(b);
    BackHeight(b, Reach(b, locator.First(index, main)));
    assert found == Back(b, Reach(b, locator.First(index, main)));
  }

  // ----- A chain for which the replay gives too much

  function Chain(n: nat): Index {
    if n == 0 then Block(0, Null) else Block(n, Chain(n - 1))
  }

  lemma {:induction false} ChainFacts(n: nat, index: map<Uint256, Index>)
    requires index == map[0 := Chain(0)]
    ensures Height(Chain(n)) == n && Origin(Chain(n)) == Chain(0) && ForkBack(Chain(n), {0}) == n
    ensures Known(Chain(n), index) && Closed(Chain(n), {0}) && Chain(n).hash == n
  {
    if n > 0 {
      ChainFacts(n - 1, index);
    }
  }

  /** Thirteen blocks of which the other node has only the first: the offsets 11 and 13 leave out 12. */
  lemma ReplayTooFar()
    ensures var b, index := Chain(12), map[0 := Chain(0)];
            var i := FirstIn(Hashes(b, 0) + [0], index, {0});
            View(b, index, {0}, 0) && !HasOffset(b, {0}) && Off(i) == 13 && Reach(b, i) == 12
  {
    var b, index := Chain(12), map[0 := Chain(0)];
    ChainFacts(12, index);
    hide Chain, Hashes, FirstIn, ForkBack, Height, Known, Closed, Off;
    forall k: nat
      ensures Off(k) != 12
    {
      OffIs(k);
      if k > 12 {
        OffGrows(12, k);
        OffIs(12);
      }
    }
    assert Modular.Pow2(2) == 4;
    OffIs(11);
    OffIs(12);
    OffIs(13);
    assert View(b, index, {0}, 0);
    ReplayExact(b, index, {0}, 0);
    LocatorLeads(b, index, {0}, 0);
    var i := FirstIn(Hashes(b, 0) + [0], index, {0});
    HashesAt(b, 0, 11);
    HashesAt(b, 0, 12);
  }
}
