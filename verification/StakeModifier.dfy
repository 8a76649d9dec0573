/** Stake modifiers: how a block gets one, and which one a kernel is hashed with. */
module StakeModifier {
  import opened Basics
  import opened Words

  type Uint64 = Word64
  type SelectionHash = (Uint256, Uint64) -> Uint256

  const MODIFIER_INTERVAL: nat := 600
  const MODIFIER_INTERVAL_RATIO: nat := 3

  datatype Block = Block(hash: Uint256, time: nat, isProofOfStake: bool, hashProofOfStake: Uint256,
                         entropyBit: bool, stakeModifier: Uint64, generated: bool)

  // A branch of the block tree is the sequence of its blocks, the genesis block first.

  // ----- The last modifier

  /** The nearest block at or before `i` that generated a modifier. */
  function LastGenerator(branch: seq<Block>, i: nat): (j: int)
    requires i < |branch|
    ensures -1 <= j <= i
    ensures j >= 0 ==> branch[j].generated
    ensures forall k | j < k <= i :: !branch[k].generated
  {
    if branch[i].generated then i else if i == 0 then -1 else LastGenerator(branch, i - 1)
  }

  method GetLastStakeModifier(branch: seq<Block>) returns (ok: bool, nStakeModifier: Uint64, nModifierTime: nat)
    ensures ok <==> |branch| > 0 && LastGenerator(branch, |branch| - 1) >= 0
    ensures ok ==> var b := branch[LastGenerator(branch, |branch| - 1)];
                   nStakeModifier == b.stakeModifier && nModifierTime == b.time
  {
    nStakeModifier, nModifierTime := seq(64, z => false), 0;
    if |branch| == 0 {
      return false, nStakeModifier, nModifierTime;
    }
    var i := |branch| - 1;
    while i > 0 && !branch[i].generated
      invariant 0 <= i < |branch| && LastGenerator(branch, |branch| - 1) == LastGenerator(branch, i)
    {
      i := i - 1;
    }
    if !branch[i].generated {
      return false, nStakeModifier, nModifierTime;
    }
    return true, branch[i].stakeModifier, branch[i].time;
  }

  // ----- The selection interval

  function Section(nSection: nat): (s: nat)
    requires nSection < 64
  {
    MODIFIER_INTERVAL * 63 / (63 + (63 - nSection) * (MODIFIER_INTERVAL_RATIO - 1))
  }

  function Sections(n: nat): nat
    requires n <= 64
  {
    if n == 0 then 0 else Sections(n - 1) + Section(n - 1)
  }

  function SelectionInterval(): nat { Sections(64) }

  method GetSelectionInterval() returns (nSelectionInterval: nat)
    ensures nSelectionInterval == SelectionInterval()
  {
    nSelectionInterval := 0;
    for nSection := 0 to 64
      invariant nSelectionInterval == Sections(nSection)
    {
      nSelectionInterval := nSelectionInterval + Section(nSection);
    }
  }

  // ----- One round of the selection

  type Candidate = (int, Uint256)

  predicate Precedes(a: Candidate, b: Candidate) {
    a.0 < b.0 || (a.0 == b.0 && a.1 <= b.1)
  }

  ghost predicate IsSorted(s: seq<Candidate>) {
    forall i, j | 0 <= i < j < |s| :: Precedes(s[i], s[j])
  }

  /** Every candidate is a block of the index, under its own hash. */
  ghost predicate Indexed(s: seq<Candidate>, index: map<Uint256, Block>) {
    forall k | 0 <= k < |s| :: s[k].1 in index && index[s[k].1].hash == s[k].1 && index[s[k].1].time == s[k].0
  }

  ghost predicate Distinct(s: seq<Candidate>) {
    forall i, j | 0 <= i < j < |s| :: s[i].1 != s[j].1
  }

  /** The hash that ranks a block; a proof-of-stake block ranks 2^32 times better. */
  function Rank(h: SelectionHash, prev: Uint64, b: Block): nat {
    if b.isProofOfStake then h(b.hashProofOfStake, prev) / 0x1_0000_0000 else h(b.hash, prev)
  }

  predicate Free(s: seq<Candidate>, selected: set<Uint256>, k: int) {
    0 <= k < |s| && s[k].1 !in selected
  }

  predicate Eligible(s: seq<Candidate>, selected: set<Uint256>, stop: int, k: int) {
    Free(s, selected, k) && s[k].0 <= stop
  }

  predicate Better(h: SelectionHash, prev: Uint64, s: seq<Candidate>, index: map<Uint256, Block>, j: int, k: int)
    requires 0 <= j < |s| && 0 <= k < |s| && s[j].1 in index && s[k].1 in index
  {
    var a, b := Rank(h, prev, index[s[j].1]), Rank(h, prev, index[s[k].1]);
    a < b || (a == b && j <= k)
  }

  /** The rule of a round: of the free candidates up to `stop`, the one of least rank, the first
      of them on a tie; and if there are none, the earliest free candidate. */
  ghost predicate IsChoice(h: SelectionHash, prev: Uint64, s: seq<Candidate>, index: map<Uint256, Block>,
                           selected: set<Uint256>, stop: int, j: int)
    requires Indexed(s, index)
  {
    && Free(s, selected, j)
    && if exists k :: Eligible(s, selected, stop, k)
       then Eligible(s, selected, stop, j)
            && forall k | Eligible(s, selected, stop, k) :: Better(h, prev, s, index, j, k)
       else forall k | Free(s, selected, k) :: j <= k
  }

  lemma ChoiceUnique(h: SelectionHash, prev: Uint64, s: seq<Candidate>, index: map<Uint256, Block>,
                     selected: set<Uint256>, stop: int, i: int, j: int)
    requires Indexed(s, index)
    requires IsChoice(h, prev, s, index, selected, stop, i) && IsChoice(h, prev, s, index, selected, stop, j)
    ensures i == j
  {
  }

  /** The scan with the early break finds the choice, and finds none only when nothing is free. */
  method SelectBlockFromCandidates(h: SelectionHash, s: seq<Candidate>, index: map<Uint256, Block>,
                                   selected: set<Uint256>, stop: int, prev: Uint64)
    returns (fSelected: bool, best: int)
    requires Indexed(s, index) && IsSorted(s)
    ensures fSelected <==> exists k :: Free(s, selected, k)
    ensures fSelected ==> IsChoice(h, prev, s, index, selected, stop, best)
  {
    fSelected, best := false, -1;
    var hashBest := 0;
    var i := 0;
    while i < |s|
      invariant 0 <= i <= |s|
      invariant !fSelected ==> forall k | 0 <= k < i :: !Free(s, selected, k)
      invariant fSelected ==> Best(h, prev, s, index, selected, stop, best, i) && hashBest == Rank(h, prev, index[s[best].1])
    {
      var b := index[s[i].1];
      if fSelected && b.time > stop {
        Settled(h, prev, s, index, selected, stop, best, i);
        return;
      }
      if b.hash in selected {
        i := i + 1;
        continue;
      }
      var hashSelection := Rank(h, prev, b);
      if fSelected && hashSelection < hashBest {
        hashBest := hashSelection;
        best := i;
      } else if !fSelected {
        fSelected := true;
        hashBest := hashSelection;
        best := i;
      }
      i := i + 1;
    }
    if fSelected {
      Settled(h, prev, s, index, selected, stop, best, i);
    }
  }

  /** What the scan knows of its best candidate before position `i`. */
  ghost predicate Best(h: SelectionHash, prev: Uint64, s: seq<Candidate>, index: map<Uint256, Block>,
                       selected: set<Uint256>, stop: int, best: int, i: nat)
    requires Indexed(s, index) && i <= |s|
  {
    && Free(s, selected, best) && best < i
    && (s[best].0 > stop ==> forall k | 0 <= k < best :: !Free(s, selected, k))
    && forall k | 0 <= k < i && Eligible(s, selected, stop, k) :: Better(h, prev, s, index, best, k) && s[best].0 <= stop
  }

  /** At the end of the list, or at a break, the best candidate is the choice. */
  lemma Settled(h: SelectionHash, prev: Uint64, s: seq<Candidate>, index: map<Uint256, Block>,
               selected: set<Uint256>, stop: int, best: int, i: nat)
    requires Indexed(s, index) && IsSorted(s) && i <= |s| && (i < |s| ==> s[i].0 > stop)
    requires Best(h, prev, s, index, selected, stop, best, i)
    ensures IsChoice(h, prev, s, index, selected, stop, best)
  {
    forall k | i <= k < |s|
      ensures s[k].0 > stop
    {
      if k > i {
        assert Precedes(s[i], s[k]);
      }
    }
    if s[best].0 > stop {
      forall k | 0 <= k < |s|
        ensures !Eligible(s, selected, stop, k)
      {
      }
    } else {
      assert Eligible(s, selected, stop, best);
    }
  }

  // ----- The candidates

  /** Of the first `n` blocks, the last ones that all have no time before `start`. */
  function FirstCandidate(branch: seq<Block>, n: nat, start: int): (k: nat)
    requires n <= |branch|
    ensures k <= n
    ensures forall i | k <= i < n :: branch[i].time >= start
    ensures k > 0 ==> branch[k - 1].time < start
  {
    if n == 0 || branch[n - 1].time < start then n else FirstCandidate(branch, n - 1, start)
  }

  function Entry(b: Block): Candidate { (b.time as int, b.hash) }

  function Entries(bs: seq<Block>): (r: seq<Candidate>)
    ensures |r| == |bs| && forall i | 0 <= i < |bs| :: r[i] == Entry(bs[i])
  {
    seq(|bs|, i requires 0 <= i < |bs| => Entry(bs[i]))
  }

  method Candidates(branch: seq<Block>, start: int) returns (v: seq<Candidate>)
    ensures v == Entries(branch[FirstCandidate(branch, |branch|, start)..])
  {
    hide FirstCandidate, Entries;
    v := [];
    var i := |branch|;
    while i > 0 && branch[i - 1].time >= start
      invariant 0 <= i <= |branch| && v == Entries(branch[i..])
      invariant FirstCandidate(branch, |branch|, start) == FirstCandidate(branch, i, start)
    {
      FirstCandidateStep(branch, i, start);
      EntriesPush(branch[i - 1], branch[i..]);
      i := i - 1;
      assert branch[i..] == [branch[i]] + branch[i + 1..];
      // in the order that the reversal after the loop gives
      v := [Entry(branch[i])] + v;
    }
    FirstCandidateStep(branch, i, start);
  }

  lemma FirstCandidateStep(branch: seq<Block>, n: nat, start: int)
    requires n <= |branch|
    ensures FirstCandidate(branch, n, start)
            == if n == 0 || branch[n - 1].time < start then n else FirstCandidate(branch, n - 1, start)
  {
  }

  lemma EntriesPush(b: Block, rest: seq<Block>)
    ensures Entries([b] + rest) == [Entry(b)] + Entries(rest)
  {
  }

  /** std::sort on the candidates. */
  function Insert(c: Candidate, s: seq<Candidate>): seq<Candidate> {
    if |s| == 0 || Precedes(c, s[0]) then [c] + s else [s[0]] + Insert(c, s[1..])
  }

  function Sort(s: seq<Candidate>): seq<Candidate> {
    if |s| == 0 then [] else Insert(s[0], Sort(s[1..]))
  }

  lemma {:induction false} InsertMembers(c: Candidate, s: seq<Candidate>)
    ensures |Insert(c, s)| == |s| + 1
    ensures forall x :: x in Insert(c, s) <==> x == c || x in s
  {
    if |s| > 0 && !Precedes(c, s[0]) {
      InsertMembers(c, s[1..]);
      assert s == [s[0]] + s[1..];
    }
  }

  lemma {:induction false} InsertSorts(c: Candidate, s: seq<Candidate>)
    requires IsSorted(s) && Distinct(s) && forall i | 0 <= i < |s| :: s[i].1 != c.1
    ensures IsSorted(Insert(c, s)) && Distinct(Insert(c, s))
  {
    if |s| > 0 {
      assert forall x | x in s[1..] :: Precedes(s[0], x) && s[0].1 != x.1;
      if Precedes(c, s[0]) {
        assert forall x | x in s :: Precedes(c, x);
      } else {
        var rest := Insert(c, s[1..]);
        InsertSorts(c, s[1..]);
        InsertMembers(c, s[1..]);
        assert forall x | x in rest :: Precedes(s[0], x) && s[0].1 != x.1;
      }
    }
  }

  /** Sorting loses no candidate and repeats none. */
  lemma {:induction false} SortKeeps(s: seq<Candidate>)
    requires Distinct(s)
    ensures IsSorted(Sort(s)) && Distinct(Sort(s)) && |Sort(s)| == |s|
    ensures forall x :: x in Sort(s) <==> x in s
  {
    if |s| > 0 {
      SortKeeps(s[1..]);
      InsertMembers(s[0], Sort(s[1..]));
      assert s == [s[0]] + s[1..];
      forall i | 0 <= i < |Sort(s[1..])|
        ensures Sort(s[1..])[i].1 != s[0].1
      {
        assert Sort(s[1..])[i] in s[1..];
      }
      InsertSorts(s[0], Sort(s[1..]));
    }
  }

  lemma SortIndexed(s: seq<Candidate>, index: map<Uint256, Block>)
    requires Indexed(s, index) && Distinct(s)
    ensures Indexed(Sort(s), index)
  {
    SortKeeps(s);
    forall k | 0 <= k < |Sort(s)|
      ensures var x := Sort(s)[k]; x.1 in index && index[x.1].hash == x.1 && index[x.1].time == x.0
    {
      assert Sort(s)[k] in s;
    }
  }

  // ----- The rounds

  function StopAt(start: int, round: nat): int
    requires round < 64
  {
    start + Sections(round + 1)
  }

  function Hashes(s: seq<Candidate>, picks: seq<nat>): set<Uint256>
    requires forall r | 0 <= r < |picks| :: picks[r] < |s|
  {
    set r | 0 <= r < |picks| :: s[picks[r]].1
  }

  /** Each of the picks is the choice of its round, the picks before it being taken. */
  ghost predicate Picked(h: SelectionHash, prev: Uint64, s: seq<Candidate>, index: map<Uint256, Block>,
                         start: int, picks: seq<nat>)
    requires Indexed(s, index)
  {
    && |picks| <= 64
    && (forall r | 0 <= r < |picks| :: picks[r] < |s|)
    && forall r | 0 <= r < |picks| ::
         IsChoice(h, prev, s, index, Hashes(s, picks[..r]), StopAt(start, r), picks[r])
  }

  lemma PickedAppend(h: SelectionHash, prev: Uint64, s: seq<Candidate>, index: map<Uint256, Block>,
                     start: int, picks: seq<nat>, j: nat)
    requires Indexed(s, index) && Picked(h, prev, s, index, start, picks) && |picks| < 64 && j < |s|
    requires IsChoice(h, prev, s, index, Hashes(s, picks), StopAt(start, |picks|), j)
    ensures Picked(h, prev, s, index, start, picks + [j])
    ensures Hashes(s, picks + [j]) == Hashes(s, picks) + {s[j].1}
  {
    hide IsChoice;
    var next := picks + [j];
    forall r | 0 <= r < |next|
      ensures IsChoice(h, prev, s, index, Hashes(s, next[..r]), StopAt(start, r), next[r])
    {
      if r < |picks| {
        assert next[..r] == picks[..r];
      } else {
        assert next[..r] == picks;
      }
    }
    HashesAppend(s, picks, j);
  }

  lemma HashesAppend(s: seq<Candidate>, picks: seq<nat>, j: nat)
    requires j < |s| && forall r | 0 <= r < |picks| :: picks[r] < |s|
    ensures Hashes(s, picks + [j]) == Hashes(s, picks) + {s[j].1}
  {
    var next := picks + [j];
    forall x
      ensures x in Hashes(s, next) <==> x in Hashes(s, picks) + {s[j].1}
    {
      if x in Hashes(s, picks) {
        var r :| 0 <= r < |picks| && s[picks[r]].1 == x;
        assert s[next[r]].1 == x;
      }
      if x == s[j].1 {
        assert s[next[|picks|]].1 == x;
      }
    }
  }

  /** The picks are different blocks. */
  lemma PicksDistinct(h: SelectionHash, prev: Uint64, s: seq<Candidate>, index: map<Uint256, Block>,
                      start: int, picks: seq<nat>, q: nat, r: nat)
    requires Indexed(s, index) && Picked(h, prev, s, index, start, picks) && q < r < |picks|
    ensures s[picks[q]].1 != s[picks[r]].1
  {
    assert IsChoice(h, prev, s, index, Hashes(s, picks[..r]), StopAt(start, r), picks[r]);
    assert picks[..r][q] == picks[q];
    assert s[picks[q]].1 in Hashes(s, picks[..r]);
  }

  /** The rules leave no freedom. */
  lemma {:induction false} PicksUnique(h: SelectionHash, prev: Uint64, s: seq<Candidate>, index: map<Uint256, Block>,
                                       start: int, p: seq<nat>, q: seq<nat>)
    requires Indexed(s, index) && Picked(h, prev, s, index, start, p) && Picked(h, prev, s, index, start, q)
    requires |p| == |q|
    ensures p == q
  {
    hide IsChoice;
    if |p| > 0 {
      var n := |p| - 1;
      PickedPrefix(h, prev, s, index, start, p);
      PickedPrefix(h, prev, s, index, start, q);
      PicksUnique(h, prev, s, index, start, p[..n], q[..n]);
      ChoiceUnique(h, prev, s, index, Hashes(s, p[..n]), StopAt(start, n), p[n], q[n]);
      assert p == p[..n] + [p[n]] && q == q[..n] + [q[n]];
    }
  }

  lemma PickedPrefix(h: SelectionHash, prev: Uint64, s: seq<Candidate>, index: map<Uint256, Block>,
                     start: int, p: seq<nat>)
    requires Indexed(s, index) && Picked(h, prev, s, index, start, p) && |p| > 0
    ensures Picked(h, prev, s, index, start, p[..|p| - 1])
  {
    hide IsChoice;
    var n := |p| - 1;
    forall r | 0 <= r < n
      ensures IsChoice(h, prev, s, index, Hashes(s, p[..n][..r]), StopAt(start, r), p[..n][r])
    {
      assert p[..n][..r] == p[..r];
    }
  }

  /** While fewer blocks are taken than there are candidates, one is free. */
  lemma {:induction false} SomeFree(s: seq<Candidate>, selected: set<Uint256>)
    requires Distinct(s) && |selected| < |s|
    ensures exists k :: Free(s, selected, k)
  {
    var last := |s| - 1;
    if s[last].1 !in selected {
      assert Free(s, selected, last);
    } else {
      var rest := selected - {s[last].1};
      SomeFree(s[..last], rest);
      var k :| Free(s[..last], rest, k);
      assert Free(s, selected, k);
    }
  }

  function One(b: bool): Uint64 { seq(64, z => z == 0 && b) }

  /** Bit `r` of the modifier is the entropy bit of the block of round `r`; there are as many
      rounds as candidates, but no more than 64, and the bits past them are zero. */
  ghost predicate IsModifier(h: SelectionHash, prev: Uint64, s: seq<Candidate>, index: map<Uint256, Block>,
                             start: int, picks: seq<nat>, m: Uint64)
    requires Indexed(s, index)
  {
    && Picked(h, prev, s, index, start, picks)
    && |picks| == (if |s| < 64 then |s| else 64)
    && HoldsBits(s, index, picks, m)
  }

  ghost predicate HoldsBits(s: seq<Candidate>, index: map<Uint256, Block>, picks: seq<nat>, m: Uint64)
    requires Indexed(s, index) && forall r | 0 <= r < |picks| :: picks[r] < |s|
  {
    forall z | 0 <= z < 64 :: m[z] == (z < |picks| && index[s[picks[z]].1].entropyBit)
  }

  lemma HoldsBitsAppend(s: seq<Candidate>, index: map<Uint256, Block>, picks: seq<nat>, m: Uint64, j: nat)
    requires Indexed(s, index) && (forall r | 0 <= r < |picks| :: picks[r] < |s|)
    requires HoldsBits(s, index, picks, m) && |picks| < 64 && j < |s|
    ensures HoldsBits(s, index, picks + [j], Or(m, Shl(One(index[s[j].1].entropyBit), |picks|)))
  {
    hide Or, Shl, One;
    AddBit(m, index[s[j].1].entropyBit, |picks|);
  }

  /** The rounds never run out of blocks. */
  method SelectRounds(h: SelectionHash, s: seq<Candidate>, index: map<Uint256, Block>, start: int, prev: Uint64)
    returns (ok: bool, m: Uint64, ghost picks: seq<nat>)
    requires Indexed(s, index) && IsSorted(s) && Distinct(s)
    ensures ok && IsModifier(h, prev, s, index, start, picks, m)
  {
    hide IsChoice, IsSorted, Distinct, Indexed, HoldsBits, Hashes, Section, Or, Shl, One;
    m := seq(64, z => false);
    picks := [];
    NoBits(s, index, m);
    var stop, selected := start, {};
    var rounds := if |s| < 64 then |s| else 64;
    var nRound := 0;
    while nRound < rounds
      invariant 0 <= nRound <= rounds && |picks| == nRound
      invariant Picked(h, prev, s, index, start, picks)
      invariant selected == Hashes(s, picks) && |selected| == nRound && stop == start + Sections(nRound)
      invariant HoldsBits(s, index, picks, m)
    {
      stop := stop + Section(nRound);
      SomeFree(s, selected);
      var fSelected, best := SelectBlockFromCandidates(h, s, index, selected, stop, prev);
      if !fSelected {
        return false, m, picks;
      }
      ChoiceFree(h, prev, s, index, selected, stop, best);
      var b := index[s[best].1];
      HoldsBitsAppend(s, index, picks, m, best);
      m := Or(m, Shl(One(b.entropyBit), nRound));
      selected := selected + {b.hash};
      PickedAppend(h, prev, s, index, start, picks, best);
      picks := picks + [best];
      nRound := nRound + 1;
    }
    return true, m, picks;
  }

  lemma NoBits(s: seq<Candidate>, index: map<Uint256, Block>, m: Uint64)
    requires Indexed(s, index) && forall z | 0 <= z < 64 :: !m[z]
    ensures HoldsBits(s, index, [], m) && Hashes(s, []) == {}
  {
  }

  lemma ChoiceFree(h: SelectionHash, prev: Uint64, s: seq<Candidate>, index: map<Uint256, Block>,
                   selected: set<Uint256>, stop: int, j: int)
    requires Indexed(s, index) && IsChoice(h, prev, s, index, selected, stop, j)
    ensures 0 <= j < |s| && s[j].1 !in selected && s[j].1 in index && index[s[j].1].hash == s[j].1
  {
  }

  lemma AddBit(m: Uint64, b: bool, r: nat)
    requires r < 64 && !m[r]
    ensures forall z | 0 <= z < 64 :: Or(m, Shl(One(b), r))[z] == if z == r then b else m[z]
  {
  }

  // ----- The next modifier

  /** The blocks of the branch are in the index, under hashes of their own. */
  ghost predicate IsBranch(branch: seq<Block>, index: map<Uint256, Block>) {
    && (forall i | 0 <= i < |branch| :: branch[i].hash in index && index[branch[i].hash] == branch[i])
    && forall i, j | 0 <= i < j < |branch| :: branch[i].hash != branch[j].hash
  }

  function Interval(time: nat): nat { time / MODIFIER_INTERVAL }

  /** The start of the selection interval for the block after the branch. */
  function SelectionStart(branch: seq<Block>): int
    requires |branch| > 0
  {
    Interval(branch[|branch| - 1].time) * MODIFIER_INTERVAL - SelectionInterval()
  }

  function SortedCandidates(branch: seq<Block>): seq<Candidate>
    requires |branch| > 0
  {
    Sort(Entries(branch[FirstCandidate(branch, |branch|, SelectionStart(branch))..]))
  }

  lemma CandidatesKept(branch: seq<Block>, index: map<Uint256, Block>)
    requires |branch| > 0 && IsBranch(branch, index)
    ensures var s := SortedCandidates(branch); Indexed(s, index) && IsSorted(s) && Distinct(s)
  {
    hide SelectionStart, FirstCandidate;
    var v := Entries(branch[FirstCandidate(branch, |branch|, SelectionStart(branch))..]);
    SortKeeps(v);
    SortIndexed(v, index);
  }

  /** The modifier of the block after the branch, and whether it is a new one. */
  ghost predicate IsNext(h: SelectionHash, index: map<Uint256, Block>, branch: seq<Block>, m: Uint64, generated: bool)
    requires IsBranch(branch, index)
  {
    if |branch| == 0 then
      generated && forall z | 0 <= z < 64 :: !m[z]
    else
      var last, j := branch[|branch| - 1], LastGenerator(branch, |branch| - 1);
      j >= 0
      && if Interval(branch[j].time) >= Interval(last.time) then
           !generated && m == branch[j].stakeModifier
         else
           CandidatesKept(branch, index);
           generated && exists picks ::
             IsModifier(h, branch[j].stakeModifier, SortedCandidates(branch), index, SelectionStart(branch), picks, m)
  }

  method ComputeNextStakeModifier(h: SelectionHash, index: map<Uint256, Block>, branch: seq<Block>)
    returns (ok: bool, nStakeModifier: Uint64, fGenerated: bool)
    requires IsBranch(branch, index)
    ensures ok <==> |branch| == 0 || LastGenerator(branch, |branch| - 1) >= 0
    ensures ok ==> IsNext(h, index, branch, nStakeModifier, fGenerated)
  {
    hide IsModifier, Sections, Section, LastGenerator, IsNext, SortedCandidates, SelectionStart, IsBranch;
    nStakeModifier, fGenerated := seq(64, z => false), false;
    if |branch| == 0 {
      NextOfNone(h, index, nStakeModifier);
      return true, nStakeModifier, true;
    }
    var nModifierTime;
    ok, nStakeModifier, nModifierTime := GetLastStakeModifier(branch);
    if !ok {
      return;
    }
    var last := branch[|branch| - 1];
    if nModifierTime / MODIFIER_INTERVAL >= last.time / MODIFIER_INTERVAL {
      NextSame(h, index, branch);
      return;
    }
    ghost var prev := nStakeModifier;
    var nSelectionInterval := GetSelectionInterval();
    var start := last.time / MODIFIER_INTERVAL * MODIFIER_INTERVAL - nSelectionInterval;
    var v := Candidates(branch, start);
    var sorted := Sort(v);
    StartAndSorted(branch, start, sorted);
    CandidatesKept(branch, index);
    ghost var picks;
    ok, nStakeModifier, picks := SelectRounds(h, sorted, index, start, nStakeModifier);
    fGenerated := true;
    NextNew(h, index, branch, picks, nStakeModifier);
  }

  lemma StartAndSorted(branch: seq<Block>, start: int, sorted: seq<Candidate>)
    requires |branch| > 0
    requires start == branch[|branch| - 1].time / MODIFIER_INTERVAL * MODIFIER_INTERVAL - SelectionInterval()
    requires sorted == Sort(Entries(branch[FirstCandidate(branch, |branch|, start)..]))
    ensures start == SelectionStart(branch) && sorted == SortedCandidates(branch)
  {
    hide Sections, Sort, Entries, FirstCandidate;
  }

  lemma NextOfNone(h: SelectionHash, index: map<Uint256, Block>, m: Uint64)
    requires IsBranch([], index) && forall z | 0 <= z < 64 :: !m[z]
    ensures IsNext(h, index, [], m, true)
  {
  }

  lemma NextSame(h: SelectionHash, index: map<Uint256, Block>, branch: seq<Block>)
    requires |branch| > 0 && IsBranch(branch, index) && LastGenerator(branch, |branch| - 1) >= 0
    requires var b := branch[LastGenerator(branch, |branch| - 1)];
             b.time / MODIFIER_INTERVAL >= branch[|branch| - 1].time / MODIFIER_INTERVAL
    ensures IsNext(h, index, branch, branch[LastGenerator(branch, |branch| - 1)].stakeModifier, false)
  {
    hide IsModifier, LastGenerator;
  }

  lemma NextNew(h: SelectionHash, index: map<Uint256, Block>, branch: seq<Block>, picks: seq<nat>, m: Uint64)
    requires |branch| > 0 && IsBranch(branch, index) && LastGenerator(branch, |branch| - 1) >= 0
    requires Indexed(SortedCandidates(branch), index)
    requires var b := branch[LastGenerator(branch, |branch| - 1)];
             && b.time / MODIFIER_INTERVAL < branch[|branch| - 1].time / MODIFIER_INTERVAL
             && IsModifier(h, b.stakeModifier, SortedCandidates(branch), index, SelectionStart(branch), picks, m)
    ensures IsNext(h, index, branch, m, true)
  {
    hide IsModifier, LastGenerator, SortedCandidates, SelectionStart;
  }

  /** The branch decides the next modifier. */
  lemma NextUnique(h: SelectionHash, index: map<Uint256, Block>, branch: seq<Block>, m: Uint64, g: bool, m': Uint64, g': bool)
    requires IsBranch(branch, index) && IsNext(h, index, branch, m, g) && IsNext(h, index, branch, m', g')
    ensures m == m' && g == g'
  {
    hide IsModifier, SortedCandidates, SelectionStart, LastGenerator, Interval;
    if |branch| > 0 && g {
      var j := LastGenerator(branch, |branch| - 1);
      CandidatesKept(branch, index);
      var s, start, prev := SortedCandidates(branch), SelectionStart(branch), branch[j].stakeModifier;
      var p :| IsModifier(h, prev, s, index, start, p, m);
      var q :| IsModifier(h, prev, s, index, start, q, m');
      ModifierUnique(h, prev, s, index, start, p, m, q, m');
    } else if |branch| == 0 {
      assert m == m';
    }
  }

  lemma ModifierUnique(h: SelectionHash, prev: Uint64, s: seq<Candidate>, index: map<Uint256, Block>, start: int,
                       p: seq<nat>, m: Uint64, q: seq<nat>, m': Uint64)
    requires Indexed(s, index) && IsModifier(h, prev, s, index, start, p, m) && IsModifier(h, prev, s, index, start, q, m')
    ensures m == m'
  {
    hide Picked, Indexed;
    PicksUnique(h, prev, s, index, start, p, q);
  }

  // ----- A chain of modifiers

  /** Every block got its modifier from the blocks before it. */
  ghost predicate IsChain(h: SelectionHash, index: map<Uint256, Block>, branch: seq<Block>) {
    && IsBranch(branch, index)
    && forall i | 0 <= i < |branch| ::
         IsBranch(branch[..i], index) && IsNext(h, index, branch[..i], branch[i].stakeModifier, branch[i].generated)
  }

  lemma {:induction false} LastGeneratorPrefix(branch: seq<Block>, n: nat, i: nat)
    requires i < n <= |branch|
    ensures LastGenerator(branch[..n], i) == LastGenerator(branch, i)
  {
    if !branch[i].generated && i > 0 {
      LastGeneratorPrefix(branch, n, i - 1);
    }
  }

  lemma ChainAt(h: SelectionHash, index: map<Uint256, Block>, branch: seq<Block>, i: nat)
    requires IsChain(h, index, branch) && i < |branch|
    ensures IsBranch(branch[..i], index) && IsNext(h, index, branch[..i], branch[i].stakeModifier, branch[i].generated)
  {
    hide IsNext, IsBranch;
  }

  lemma NextShows(h: SelectionHash, index: map<Uint256, Block>, before: seq<Block>, m: Uint64, generated: bool)
    requires IsBranch(before, index) && IsNext(h, index, before, m, generated)
    ensures |before| == 0 ==> generated
    ensures |before| > 0 ==> var j := LastGenerator(before, |before| - 1);
                             && j >= 0
                             && (generated <==> Interval(before[j].time) < Interval(before[|before| - 1].time))
                             && (!generated ==> m == before[j].stakeModifier)
  {
    hide IsModifier, SortedCandidates, SelectionStart, Interval, IsBranch, LastGenerator;
  }

  /** What one block of a chain shows. */
  lemma ChainStep(h: SelectionHash, index: map<Uint256, Block>, branch: seq<Block>, i: nat)
    requires IsChain(h, index, branch) && i < |branch|
    ensures i == 0 ==> branch[i].generated
    ensures i > 0 ==> var j := LastGenerator(branch, i - 1);
                      && j >= 0
                      && (branch[i].generated <==> Interval(branch[j].time) < Interval(branch[i - 1].time))
                      && (!branch[i].generated ==> branch[i].stakeModifier == branch[j].stakeModifier)
  {
    hide IsChain, IsNext, IsBranch, Interval, LastGenerator;
    ChainAt(h, index, branch, i);
    NextShows(h, index, branch[..i], branch[i].stakeModifier, branch[i].generated);
    if i > 0 {
      LastGeneratorPrefix(branch, i, i - 1);
    }
  }

  /** The modifier of a block is that of the nearest block, itself or before it, that generated one. */
  lemma ModifierOfGenerator(h: SelectionHash, index: map<Uint256, Block>, branch: seq<Block>, i: nat)
    requires IsChain(h, index, branch) && i < |branch|
    ensures var j := LastGenerator(branch, i); j >= 0 && branch[i].stakeModifier == branch[j].stakeModifier
  {
    hide IsChain;
    ChainStep(h, index, branch, i);
  }

  /** Before a block that generates comes one in a later interval than the generator before. */
  lemma GeneratorStep(h: SelectionHash, index: map<Uint256, Block>, branch: seq<Block>, k: nat)
    requires IsChain(h, index, branch) && 0 < k < |branch| && branch[k].generated
    ensures LastGenerator(branch, k - 1) >= 0
    ensures Interval(branch[LastGenerator(branch, k - 1)].time) < Interval(branch[k - 1].time)
  {
    hide IsChain;
    ChainStep(h, index, branch, k);
  }

  ghost predicate TimesAscend(branch: seq<Block>) {
    forall i, j | 0 <= i <= j < |branch| :: branch[i].time <= branch[j].time
  }

  /** When block times do not go back, generating blocks are in strictly increasing intervals,
      so no interval has two. */
  lemma {:induction false} OneGeneratorPerInterval(h: SelectionHash, index: map<Uint256, Block>, branch: seq<Block>, i: nat, k: nat)
    requires IsChain(h, index, branch) && TimesAscend(branch)
    requires i < k < |branch| && branch[i].generated && branch[k].generated
    ensures Interval(branch[i].time) < Interval(branch[k].time)
    decreases k
  {
    hide IsChain;
    GeneratorStep(h, index, branch, k);
    var j := LastGenerator(branch, k - 1);
    assert branch[k - 1].time <= branch[k].time;
    if i < j {
      OneGeneratorPerInterval(h, index, branch, i, j);
    }
  }

  /** A chain grows by what the computation gives. */
  lemma ChainGrows(h: SelectionHash, index: map<Uint256, Block>, branch: seq<Block>, b: Block)
    requires IsChain(h, index, branch) && IsBranch(branch + [b], index)
    requires IsNext(h, index, branch, b.stakeModifier, b.generated)
    ensures IsChain(h, index, branch + [b])
  {
    hide IsNext;
    var next := branch + [b];
    forall i | 0 <= i < |next|
      ensures IsBranch(next[..i], index) && IsNext(h, index, next[..i], next[i].stakeModifier, next[i].generated)
    {
      assert next[..i] == if i < |branch| then branch[..i] else branch;
    }
  }

  // ----- The modifier of a kernel

  /** The place of a block in the main chain, or -1. */
  function Place(main: seq<Block>, hash: Uint256): (p: int)
    ensures -1 <= p < |main|
    ensures p >= 0 ==> main[p].hash == hash
  {
    if |main| == 0 then -1
    else if main[0].hash == hash then 0
    else var p := Place(main[1..], hash); if p < 0 then -1 else p + 1
  }

  /** The first block from `p` on that generated a modifier no earlier than `time`. */
  function FirstLate(main: seq<Block>, p: nat, time: nat): (q: int)
    requires p <= |main|
    ensures q == -1 || (p <= q < |main| && main[q].generated && main[q].time >= time)
    decreases |main| - p
  {
    if p == |main| then -1
    else if main[p].generated && main[p].time >= time then p
    else FirstLate(main, p + 1, time)
  }

  /** The block whose modifier a kernel of the given block is hashed with, if there is one yet. */
  function KernelBlock(main: seq<Block>, hash: Uint256): (q: int)
    ensures -1 <= q < |main|
  {
    var f := Place(main, hash);
    if f < 0 then -1 else FirstLate(main, f + 1, main[f].time + SelectionInterval())
  }

  method GetKernelStakeModifier(indexed: set<Uint256>, main: seq<Block>, hashBlockFrom: Uint256)
    returns (ok: bool, nStakeModifier: Uint64, nHeight: int, nTime: nat)
    requires forall i | 0 <= i < |main| :: main[i].hash in indexed
    ensures ok <==> KernelBlock(main, hashBlockFrom) >= 0
    ensures ok ==> nHeight == KernelBlock(main, hashBlockFrom)
                   && nStakeModifier == main[nHeight].stakeModifier && nTime == main[nHeight].time
  {
    hide Sections;
    nStakeModifier, nHeight, nTime := seq(64, z => false), 0, 0;
    if hashBlockFrom !in indexed {
      return false, nStakeModifier, nHeight, nTime;
    }
    var f := Place(main, hashBlockFrom);
    if f < 0 {
      // a block off the main chain has no next block
      return false, nStakeModifier, nHeight, nTime;
    }
    nHeight, nTime := f, main[f].time;
    var nSelectionInterval := GetSelectionInterval();
    IntervalPositive();
    var p := f;
    while nTime < main[f].time + nSelectionInterval
      invariant f <= p < |main| && nTime >= 0
      invariant nTime < main[f].time + nSelectionInterval ==>
                  FirstLate(main, f + 1, main[f].time + nSelectionInterval) == FirstLate(main, p + 1, main[f].time + nSelectionInterval)
      invariant nTime >= main[f].time + nSelectionInterval ==>
                  p == nHeight == FirstLate(main, f + 1, main[f].time + nSelectionInterval) && nTime == main[p].time
      decreases |main| - p
    {
      if p + 1 == |main| {
        return false, nStakeModifier, nHeight, nTime;
      }
      p := p + 1;
      if main[p].generated {
        nHeight, nTime := p, main[p].time;
      }
    }
    return true, main[p].stakeModifier, nHeight, nTime;
  }

  lemma IntervalPositive()
    ensures SelectionInterval() > 0
  {
    hide Section;
    assert Section(63) == 600 by {
      SectionLast();
    }
    assert Sections(64) == Sections(63) + Section(63);
  }

  lemma SectionLast()
    ensures Section(63) == 600
  {
  }

  /** Once a kernel has its modifier, it keeps it: only a change of the main chain at or below
      that block can change it. */
  lemma KernelModifierStable(main: seq<Block>, other: seq<Block>, hash: Uint256)
    requires KernelBlock(main, hash) >= 0
    requires KernelBlock(main, hash) < |other| && other[..KernelBlock(main, hash) + 1] == main[..KernelBlock(main, hash) + 1]
    ensures KernelBlock(other, hash) == KernelBlock(main, hash)
    ensures other[KernelBlock(other, hash)] == main[KernelBlock(main, hash)]
  {
    hide Sections;
    var q, f := KernelBlock(main, hash), Place(main, hash);
    forall i | 0 <= i <= q
      ensures other[i] == main[i]
    {
      assert other[i] == other[..q + 1][i] == main[..q + 1][i];
    }
    SamePlace(main, other, hash, q + 1);
    SameFirstLate(main, other, f + 1, main[f].time + SelectionInterval());
  }

  lemma {:induction false} SamePlace(main: seq<Block>, other: seq<Block>, hash: Uint256, n: nat)
    requires n <= |main| && n <= |other| && forall i | 0 <= i < n :: main[i] == other[i]
    requires 0 <= Place(main, hash) < n
    ensures Place(other, hash) == Place(main, hash)
  {
    if main[0].hash != hash {
      SamePlace(main[1..], other[1..], hash, n - 1);
    }
  }

  lemma {:induction false} SameFirstLate(main: seq<Block>, other: seq<Block>, p: nat, time: nat)
    requires p <= |main| && FirstLate(main, p, time) >= 0 && FirstLate(main, p, time) < |other|
    requires forall i | 0 <= i <= FirstLate(main, p, time) :: main[i] == other[i]
    ensures FirstLate(other, p, time) == FirstLate(main, p, time)
    decreases |main| - p
  {
    if !(main[p].generated && main[p].time >= time) {
      SameFirstLate(main, other, p + 1, time);
    }
  }
}
