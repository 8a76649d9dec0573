/** What the selection of stake modifiers comes to: in terms of the hashes themselves, of seconds, and
    of the age of a modifier. */
module ModifierRules {
  import opened Basics
  import Modular
  import opened StakeModifier

  const TWO32: nat := 0x1_0000_0000
  const TWO224: nat := 0x1_00000000_00000000_00000000_00000000_00000000_00000000_00000000
  const TWO256: nat := 0x1_00000000_00000000_00000000_00000000_00000000_00000000_00000000_00000000

  // ----- Proof-of-stake first

  /** The choice of a round against any other eligible candidate, by their hashes as they are. Of
      two blocks of one kind it has the lower hash, up to the 32 bits that a proof-of-stake block is
      spared; of a proof-of-work and a proof-of-stake block it is the first only when its hash is
      lower 2^32 times over. What is even goes to the earlier candidate. */
  lemma ChoiceByHashes(h: SelectionHash, prev: Uint64, s: seq<Candidate>, index: map<Uint256, Block>,
                       selected: set<Uint256>, stop: int, j: int, k: int)
    requires Indexed(s, index) && IsChoice(h, prev, s, index, selected, stop, j) && Eligible(s, selected, stop, k)
    ensures Eligible(s, selected, stop, j)
    ensures var a, b := index[s[j].1], index[s[k].1];
            && (!a.isProofOfStake && !b.isProofOfStake ==>
                  h(a.hash, prev) <= h(b.hash, prev) && (h(a.hash, prev) == h(b.hash, prev) ==> j <= k))
            && (!a.isProofOfStake && b.isProofOfStake ==>
                  h(a.hash, prev) * TWO32 <= h(b.hashProofOfStake, prev)
                  && (h(b.hashProofOfStake, prev) < (h(a.hash, prev) + 1) * TWO32 ==> j <= k))
            && (a.isProofOfStake && !b.isProofOfStake ==>
                  h(a.hashProofOfStake, prev) < (h(b.hash, prev) + 1) * TWO32
                  && (h(b.hash, prev) * TWO32 <= h(a.hashProofOfStake, prev) ==> j <= k))
            && (a.isProofOfStake && b.isProofOfStake ==>
                  && h(a.hashProofOfStake, prev) - h(a.hashProofOfStake, prev) % TWO32 <= h(b.hashProofOfStake, prev)
                  && (h(b.hashProofOfStake, prev) - h(b.hashProofOfStake, prev) % TWO32 <= h(a.hashProofOfStake, prev) ==> j <= k))
  {
    var a, b := index[s[j].1], index[s[k].1];
    assert Better(h, prev, s, index, j, k);
    if a.isProofOfStake {
      Divided(h(a.hashProofOfStake, prev));
    }
    if b.isProofOfStake {
      Divided(h(b.hashProofOfStake, prev));
    }
  }

  lemma Divided(x: nat)
    ensures x == x / TWO32 * TWO32 + x % TWO32 && 0 <= x % TWO32 < TWO32
  {
  }

  /** A proof-of-work block with a hash of 225 bits or more never comes before a proof-of-stake block. */
  lemma StakeFirst(h: SelectionHash, prev: Uint64, s: seq<Candidate>, index: map<Uint256, Block>,
                   selected: set<Uint256>, stop: int, j: int, k: int)
    requires Indexed(s, index) && IsChoice(h, prev, s, index, selected, stop, j) && Eligible(s, selected, stop, k)
    requires index[s[k].1].isProofOfStake && h(index[s[k].1].hashProofOfStake, prev) < TWO256
    requires !index[s[j].1].isProofOfStake
    ensures h(index[s[j].1].hash, prev) < TWO224
  {
    ChoiceByHashes(h, prev, s, index, selected, stop, j, k);
  }

  // ----- The selection interval, in seconds

  /** A section is the whole part of 37800 / (189 - 2 n) seconds: 200 first and 600 in the end. */
  lemma SectionSeconds(n: nat)
    requires n < 64
    ensures Section(n) * (189 - 2 * n) <= 37800 < (Section(n) + 1) * (189 - 2 * n)
    ensures 200 <= Section(n) <= 600 && (n == 0 ==> Section(n) == 200) && (n == 63 ==> Section(n) == 600)
    ensures n > 0 ==> Section(n - 1) <= Section(n)
  {
    var d := 189 - 2 * n;
    assert Section(n) == 37800 / d;
    Quotient(37800, d);
    assert 200 * d <= 37800 < 601 * d;
    Between(Section(n), 200, 600, d, 37800);
    if n > 0 {
      Quotient(37800, d + 2);
      assert Section(n - 1) == 37800 / (d + 2);
      Between(Section(n), Section(n - 1), 600, d, 37800);
    }
  }

  lemma Quotient(x: nat, d: nat)
    requires d > 0
    ensures x / d * d <= x < (x / d + 1) * d
  {
    assert x == x / d * d + x % d;
  }

  lemma Between(q: nat, lo: nat, hi: nat, d: nat, x: nat)
    requires d > 0 && q * d <= x < (q + 1) * d && lo * d <= x < (hi + 1) * d
    ensures lo <= q <= hi
  {
    if q < lo {
      Modular.MulAtMost(q + 1, lo, d);
    }
    if q > hi {
      Modular.MulAtMost(hi + 1, q, d);
    }
  }

  /** All 64 sections together. */
  lemma IntervalSeconds()
    ensures SelectionInterval() == 21135
  {
    hide Sections, Section;
    assert Sections(0) == 0 by {
      NoSections();
    }
    SixteenMore(0);
    SixteenMore(16);
    SixteenMore(32);
    SixteenMore(48);
    FirstSixteen();
    SecondSixteen();
    ThirdSixteen();
    FourthSixteen();
  }

  lemma NoSections()
    ensures Sections(0) == 0
  {
  }

  function Sixteen(n: nat): nat
    requires n <= 48
  {
    Section(n) + Section(n + 1) + Section(n + 2) + Section(n + 3)
    + Section(n + 4) + Section(n + 5) + Section(n + 6) + Section(n + 7)
    + Section(n + 8) + Section(n + 9) + Section(n + 10) + Section(n + 11)
    + Section(n + 12) + Section(n + 13) + Section(n + 14) + Section(n + 15)
  }

  lemma SixteenMore(n: nat)
    requires n <= 48
    ensures Sections(n + 16) == Sections(n) + Sixteen(n)
  {
    hide Section;
    FourMore(n);
    FourMore(n + 4);
    FourMore(n + 8);
    FourMore(n + 12);
  }

  lemma FourMore(n: nat)
    requires n <= 60
    ensures Sections(n + 4) == Sections(n) + Section(n) + Section(n + 1) + Section(n + 2) + Section(n + 3)
  {
    hide Section;
    assert Sections(n + 1) == Sections(n) + Section(n);
    assert Sections(n + 2) == Sections(n + 1) + Section(n + 1);
    assert Sections(n + 3) == Sections(n + 2) + Section(n + 2);
  }

  lemma SectionIs(n: nat, seconds: nat)
    requires n < 64 && seconds * (189 - 2 * n) <= 37800 < (seconds + 1) * (189 - 2 * n)
    ensures Section(n) == seconds
  {
    SectionSeconds(n);
    Between(Section(n), seconds, seconds, 189 - 2 * n, 37800);
  }

  lemma FirstSixteen()
    ensures Sixteen(0) == 3479
  {
    hide Section;
    SectionIs(0, 200); SectionIs(1, 202); SectionIs(2, 204); SectionIs(3, 206);
    SectionIs(4, 208); SectionIs(5, 211); SectionIs(6, 213); SectionIs(7, 216);
    SectionIs(8, 218); SectionIs(9, 221); SectionIs(10, 223); SectionIs(11, 226);
    SectionIs(12, 229); SectionIs(13, 231); SectionIs(14, 234); SectionIs(15, 237);
  }

  lemma SecondSixteen()
    ensures Sixteen(16) == 4270
  {
    hide Section;
    SectionIs(16, 240); SectionIs(17, 243); SectionIs(18, 247); SectionIs(19, 250);
    SectionIs(20, 253); SectionIs(21, 257); SectionIs(22, 260); SectionIs(23, 264);
    SectionIs(24, 268); SectionIs(25, 271); SectionIs(26, 275); SectionIs(27, 280);
    SectionIs(28, 284); SectionIs(29, 288); SectionIs(30, 293); SectionIs(31, 297);
  }

  lemma ThirdSixteen()
    ensures Sixteen(32) == 5529
  {
    hide Section;
    SectionIs(32, 302); SectionIs(33, 307); SectionIs(34, 312); SectionIs(35, 317);
    SectionIs(36, 323); SectionIs(37, 328); SectionIs(38, 334); SectionIs(39, 340);
    SectionIs(40, 346); SectionIs(41, 353); SectionIs(42, 360); SectionIs(43, 366);
    SectionIs(44, 374); SectionIs(45, 381); SectionIs(46, 389); SectionIs(47, 397);
  }

  lemma FourthSixteen()
    ensures Sixteen(48) == 7857
  {
    hide Section;
    SectionIs(48, 406); SectionIs(49, 415); SectionIs(50, 424); SectionIs(51, 434);
    SectionIs(52, 444); SectionIs(53, 455); SectionIs(54, 466); SectionIs(55, 478);
    SectionIs(56, 490); SectionIs(57, 504); SectionIs(58, 517); SectionIs(59, 532);
    SectionIs(60, 547); SectionIs(61, 564); SectionIs(62, 581); SectionIs(63, 600);
  }

  /** The selection interval ends where the interval of the last block begins. */
  lemma StartSeconds(branch: seq<Block>)
    requires |branch| > 0
    ensures var end := SelectionStart(branch) + 21135;
            end % 600 == 0 && end <= branch[|branch| - 1].time < end + 600
  {
    hide Sections;
    IntervalSeconds();
  }

  /** Each round takes in one more section, the last one up to the start of the interval of the last block. */
  lemma StopSeconds(start: int, round: nat)
    requires round < 64
    ensures StopAt(start, round) == (if round == 0 then start else StopAt(start, round - 1)) + Section(round)
    ensures StopAt(start, 0) == start + 200 && StopAt(start, 63) == start + 21135
  {
    hide Sections, Section;
    IntervalSeconds();
    NoSections();
    SectionIs(0, 200);
    NextSection(0);
    NextSection(round);
  }

  lemma NextSection(n: nat)
    requires n < 64
    ensures Sections(n + 1) == Sections(n) + Section(n)
  {
    hide Section;
  }

  /** The candidates are the blocks that lead up to the end of the branch, each not before the start. */
  lemma CandidatesExactly(branch: seq<Block>, c: Candidate)
    requires |branch| > 0 && forall i, j | 0 <= i < j < |branch| :: branch[i].hash != branch[j].hash
    ensures c in SortedCandidates(branch) <==>
              exists i :: 0 <= i < |branch| && c.0 == branch[i].time && c.1 == branch[i].hash
                && forall k | i <= k < |branch| :: branch[k].time >= SelectionStart(branch)
  {
    hide SelectionStart, FirstCandidate, Sort, Entries;
    var f := FirstCandidate(branch, |branch|, SelectionStart(branch));
    var v := Entries(branch[f..]);
    EntriesDistinct(branch[f..]);
    SortKeeps(v);
    assert SortedCandidates(branch) == Sort(v);
    if c in v {
      var i :| 0 <= i < |v| && v[i] == c;
      assert c == Entry(branch[f..][i]) && branch[f..][i] == branch[f + i];
    }
    forall i | 0 <= i < |branch| && (forall k | i <= k < |branch| :: branch[k].time >= SelectionStart(branch))
      ensures Entry(branch[i]) in v
    {
      EntryInside(branch, f, SelectionStart(branch), i);
    }
  }

  lemma EntryInside(branch: seq<Block>, f: nat, start: int, i: nat)
    requires f <= |branch| && (f > 0 ==> branch[f - 1].time < start)
    requires i < |branch| && forall k | i <= k < |branch| :: branch[k].time >= start
    ensures Entry(branch[i]) in Entries(branch[f..])
  {
    hide Entries;
    if f <= i {
      assert Entries(branch[f..])[i - f] == Entry(branch[f..][i - f]);
    }
  }

  lemma EntriesDistinct(bs: seq<Block>)
    requires forall i, j | 0 <= i < j < |bs| :: bs[i].hash != bs[j].hash
    ensures Distinct(Entries(bs))
  {
  }

  /** They are in the order of their times, and of their hashes at one time. */
  lemma CandidatesInOrder(branch: seq<Block>, i: nat, j: nat)
    requires |branch| > 0 && forall i, j | 0 <= i < j < |branch| :: branch[i].hash != branch[j].hash
    requires i < j < |SortedCandidates(branch)|
    ensures var a, b := SortedCandidates(branch)[i], SortedCandidates(branch)[j];
            a.0 < b.0 || (a.0 == b.0 && a.1 < b.1)
  {
    hide SelectionStart, FirstCandidate, Sort, Entries;
    var f := FirstCandidate(branch, |branch|, SelectionStart(branch));
    EntriesDistinct(branch[f..]);
    SortKeeps(Entries(branch[f..]));
  }

  // ----- How old a modifier gets

  /** The modifier of a block was made by it, or is less than one interval older than the block before. */
  lemma ModifierIsFresh(h: SelectionHash, index: map<Uint256, Block>, branch: seq<Block>, i: nat)
    requires IsChain(h, index, branch) && 0 < i < |branch| && !branch[i].generated
    ensures exists j: nat :: j < i && branch[j].generated && (forall k | j < k <= i :: !branch[k].generated)
              && branch[i].stakeModifier == branch[j].stakeModifier && branch[i - 1].time < (branch[j].time / 600 + 1) * 600
  {
    hide IsChain;
    ChainStep(h, index, branch, i);
    var j := LastGenerator(branch, i - 1);
    assert branch[j].generated;
  }

  /** And a new one is made only when the block before is in a later interval than the last one. */
  lemma MadeInLaterInterval(h: SelectionHash, index: map<Uint256, Block>, branch: seq<Block>, i: nat)
    requires IsChain(h, index, branch) && 0 < i < |branch| && branch[i].generated
    ensures exists j: nat :: j < i && branch[j].generated && (forall k | j < k < i :: !branch[k].generated)
              && branch[i - 1].time >= (branch[j].time / 600 + 1) * 600
  {
    hide IsChain;
    ChainStep(h, index, branch, i);
    var j := LastGenerator(branch, i - 1);
    assert branch[j].generated;
  }

  // ----- The block of a kernel

  /** A kernel takes the modifier of the first block after its own that made one at least a
      selection interval later. */
  lemma KernelBlockExactly(main: seq<Block>, f: nat, q: nat)
    requires f < |main| && q < |main| && forall i, j | 0 <= i < j < |main| :: main[i].hash != main[j].hash
    ensures KernelBlock(main, main[f].hash) == q <==>
              && f < q && main[q].generated && main[q].time >= main[f].time + 21135
              && forall i | f < i < q && main[i].generated :: main[i].time < main[f].time + 21135
  {
    hide Sections;
    IntervalSeconds();
    PlaceOf(main, f);
    FirstLateIs(main, f + 1, main[f].time + 21135);
  }

  lemma {:induction false} PlaceOf(main: seq<Block>, f: nat)
    requires f < |main| && forall i, j | 0 <= i < j < |main| :: main[i].hash != main[j].hash
    ensures Place(main, main[f].hash) == f
  {
    if f > 0 {
      PlaceOf(main[1..], f - 1);
    }
  }

  lemma {:induction false} FirstLateIs(main: seq<Block>, p: nat, time: nat)
    requires p <= |main|
    ensures var q := FirstLate(main, p, time);
            forall i | p <= i < (if q < 0 then |main| else q) && main[i].generated :: main[i].time < time
    decreases |main| - p
  {
    if p < |main| && !(main[p].generated && main[p].time >= time) {
      FirstLateIs(main, p + 1, time);
    }
  }
}
