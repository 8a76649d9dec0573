/** When filling a block follows a pointer to an orphan that was dropped: a condition on the pool and
    what is on disk alone, and a pool for which it happens. */
module StaleOrphans {
  import opened Basics
  import opened BlockSpec

  // ----- What may ever get into a block

  /** With all its parents in `s`, a transaction of the pool is in `s`. */
  ghost predicate ClosedUnder(s: set<Uint256>, pool: seq<Tx>, disk: set<Uint256>) {
    forall t | t in pool && !t.passed && Parents(t, disk) <= s :: t.hash in s
  }

  /** It is in every such set: the transactions it leads back to are all in the pool or on disk. */
  ghost predicate Enterable(h: Uint256, pool: seq<Tx>, disk: set<Uint256>) {
    forall s: set<Uint256> | ClosedUnder(s, pool, disk) :: h in s
  }

  /** No list that is left with a pointer to a dropped orphan is that of a transaction that may enter. */
  ghost predicate NoneEnterable(pool: seq<Tx>, disk: set<Uint256>) {
    forall h | h in StaleParents(pool, disk, Hashes(pool)) :: !Enterable(h, pool, disk)
  }

  /** A block holds only what may enter. */
  lemma BlockEnterable(pool: seq<Tx>, disk: set<Uint256>, vtx: seq<Tx>, h: Uint256)
    requires Taken(pool, vtx) && ParentsFirst(vtx, disk) && h in Hashes(vtx)
    ensures Enterable(h, pool, disk)
  {
    hide Parents, Hashes, ClosedUnder;
    forall s: set<Uint256> | ClosedUnder(s, pool, disk)
      ensures h in s
    {
      BlockInside(pool, disk, vtx, s);
    }
  }

  lemma {:induction false} BlockInside(pool: seq<Tx>, disk: set<Uint256>, vtx: seq<Tx>, s: set<Uint256>)
    requires Taken(pool, vtx) && ParentsFirst(vtx, disk) && ClosedUnder(s, pool, disk)
    ensures Hashes(vtx) <= s
    decreases |vtx|
  {
    hide Parents;
    if |vtx| > 0 {
      var n := |vtx| - 1;
      assert forall j | 0 <= j < n :: vtx[..n][..j] == vtx[..j];
      BlockInside(pool, disk, vtx[..n], s);
      HashesNext(vtx, n);
      assert vtx[..n + 1] == vtx && Parents(vtx[n], disk) <= Hashes(vtx[..n]);
    }
  }

  /** A run to the end in which nothing is refused takes all that may enter. */
  lemma AllEnter(pool: seq<Tx>, w: World, turns: seq<Turn>, h: Uint256)
    requires DistinctTxs(pool) && IsOver(pool, w, turns) && Enterable(h, pool, w.disk)
    requires forall n | 0 <= n < |turns| :: turns[n].added
    ensures h in Hashes(Entered(turns))
  {
    hide Parents, Hashes, Entered, Seen, DistinctTxs;
    var s := Hashes(Entered(turns));
    forall t | t in pool && !t.passed && Parents(t, w.disk) <= s
      ensures t.hash in s
    {
      assert !IsReady(pool, w, turns, t);
      var n := SeenTurn(turns, t.hash);
      EnteredAt(turns, n);
    }
    assert ClosedUnder(s, pool, w.disk);
  }

  // ----- A run to the end

  /** Of the ready ones among the first `n` of the pool, one that no other beats. */
  ghost predicate IsBest(pool: seq<Tx>, n: nat, w: World, turns: seq<Turn>, byFee: bool, k: nat)
    requires n <= |pool|
  {
    && k < n && IsReady(pool, w, turns, pool[k])
    && forall j | 0 <= j < n && IsReady(pool, w, turns, pool[j]) :: !Less(byFee, EntryOf(w, pool[k]), EntryOf(w, pool[j]))
  }

  lemma {:induction false} BestExists(pool: seq<Tx>, n: nat, w: World, turns: seq<Turn>, byFee: bool, i: nat) returns (k: nat)
    requires i < n <= |pool| && IsReady(pool, w, turns, pool[i])
    ensures IsBest(pool, n, w, turns, byFee, k)
    decreases n
  {
    hide IsReady;
    if exists j :: 0 <= j < n - 1 && IsReady(pool, w, turns, pool[j]) {
      var j: nat :| j < n - 1 && IsReady(pool, w, turns, pool[j]);
      k := BestExists(pool, n - 1, w, turns, byFee, j);
      if IsReady(pool, w, turns, pool[n - 1]) && Less(byFee, EntryOf(w, pool[k]), EntryOf(w, pool[n - 1])) {
        k := n - 1;
      }
    } else {
      k := i;
    }
  }

  /** Every run can be continued to its end. */
  lemma {:induction false} RunToEnd(pool: seq<Tx>, w: World, l: Limits, turns: seq<Turn>) returns (all: seq<Turn>)
    requires IsRun(pool, w, l, turns)
    ensures IsRun(pool, w, l, all) && IsOver(pool, w, all)
    decreases |Hashes(pool) - Seen(turns)|
  {
    hide IsRun, Passes, ByFee, Less, Hashes;
    if IsOver(pool, w, turns) {
      all := turns;
    } else {
      var t :| IsReady(pool, w, turns, t);
      var i: nat :| i < |pool| && pool[i] == t;
      var byFee := ByFee(w, l, turns);
      var k := BestExists(pool, |pool|, w, turns, byFee, i);
      var next := Turn(pool[k], byFee, Passes(w, l, pool[k], Entered(turns), byFee));
      assert IsTurn(pool, w, l, turns, next);
      RunNext(pool, w, l, turns, next);
      HashOf(pool, k);
      SetLess(Hashes(pool), Seen(turns), next.tx.hash);
      all := RunToEnd(pool, w, l, turns + [next]);
    }
  }

  lemma HashOf(pool: seq<Tx>, k: nat)
    requires k < |pool|
    ensures pool[k].hash in Hashes(pool)
  {
  }

  lemma SetLess(all: set<Uint256>, s: set<Uint256>, h: Uint256)
    requires h in all && h !in s
    ensures |all - (s + {h})| < |all - s|
  {
    assert all - s == (all - (s + {h})) + {h};
  }

  // ----- A world that accepts everything

  /** Every transaction of the pool passes, on top of any block of others of the pool. */
  ghost predicate AcceptsAll(pool: seq<Tx>, w: World, l: Limits) {
    forall t, vtx, byFee | t in pool && !t.passed && Taken(pool, vtx) && DistinctTxs(vtx) && t.hash !in Hashes(vtx) ::
      Passes(w, l, t, vtx, byFee)
  }

  lemma {:induction false} RunBlock(pool: seq<Tx>, w: World, l: Limits, turns: seq<Turn>)
    requires IsRun(pool, w, l, turns)
    ensures Taken(pool, Entered(turns)) && ParentsFirst(Entered(turns), w.disk)
    ensures DistinctTxs(Entered(turns)) && Hashes(Entered(turns)) <= Seen(turns)
    decreases |turns|
  {
    hide Parents, Passes, ByFee, Less;
    if |turns| > 0 {
      var n := |turns| - 1;
      RunBlock(pool, w, l, turns[..n]);
      if turns[n].added {
        EnterOne(Entered(turns[..n]), turns[n].tx, w.disk);
      } else {
        assert Entered(turns) == Entered(turns[..n]);
      }
    }
  }

  lemma AllAdded(pool: seq<Tx>, w: World, l: Limits, turns: seq<Turn>)
    requires AcceptsAll(pool, w, l) && IsRun(pool, w, l, turns)
    ensures forall n | 0 <= n < |turns| :: turns[n].added
  {
    hide IsRun, Passes, Hashes, Entered, Seen, Taken, Parents, Less, ByFee, DistinctTxs;
    forall n | 0 <= n < |turns|
      ensures turns[n].added
    {
      RunPrefix(pool, w, l, turns, n);
      RunBlock(pool, w, l, turns[..n]);
    }
  }

  /** The pool, all of it, keeps within the limits of a block. */
  ghost predicate FitsBlock(pool: seq<Tx>) {
    1000 + SumSize(pool) < MAX_BLOCK_SIZE - 1000 && 100 + SumOwnOps(pool) < MAX_BLOCK_SIGOPS
  }

  function SumOwnOps(txs: seq<Tx>): nat {
    if |txs| == 0 then 0 else SumOwnOps(txs[..|txs| - 1]) + txs[|txs| - 1].sigOps
  }

  function Accepting(disk: set<Uint256>): World {
    World(disk, t => 0.0, t => 0.0, (t, size) => 0, t => 0, t => 0, (t, included) => true, (t, included) => true)
  }

  function Latest(txs: seq<Tx>): (m: nat)
    ensures forall k | 0 <= k < |txs| :: txs[k].time <= m
  {
    if |txs| == 0 then 0
    else
      var m := Latest(txs[..|txs| - 1]);
      if txs[|txs| - 1].time <= m then m else txs[|txs| - 1].time
  }

  /** The largest block there can be, at a time that is late enough for all of the pool. */
  function Roomy(pool: seq<Tx>): Limits {
    Bounded(MAX_BLOCK_SIZE, 0, 0, Limits(0, 0, 0, 0.0, Latest(pool), false, 0))
  }

  lemma RoomyIs(pool: seq<Tx>)
    ensures Roomy(pool) == Bounded(MAX_BLOCK_SIZE, 0, 0, Limits(0, 0, 0, 0.0, Latest(pool), false, 0))
  {
  }

  lemma {:induction false} WithoutOne(txs: seq<Tx>, k: nat)
    requires k < |txs|
    ensures SumSize(txs) == SumSize(txs[..k] + txs[k + 1..]) + txs[k].size
    ensures SumOwnOps(txs) == SumOwnOps(txs[..k] + txs[k + 1..]) + txs[k].sigOps
    decreases |txs|
  {
    var n := |txs| - 1;
    if k < n {
      WithoutOne(txs[..n], k);
      var part := txs[..n][..k] + txs[..n][k + 1..];
      assert txs[..k] + txs[k + 1..] == part + [txs[n]];
      assert (part + [txs[n]])[..|part|] == part;
      assert txs[..n][k] == txs[k];
    } else {
      assert txs[..k] + txs[k + 1..] == txs[..n];
    }
  }

  /** Different transactions of a pool add up to no more than the pool. */
  lemma {:induction false} PartSum(pool: seq<Tx>, vtx: seq<Tx>)
    requires DistinctTxs(vtx) && forall j | 0 <= j < |vtx| :: vtx[j] in pool
    ensures SumSize(vtx) <= SumSize(pool) && SumOwnOps(vtx) <= SumOwnOps(pool)
    decreases |pool|
  {
    if |pool| > 0 {
      var n := |pool| - 1;
      if k :| 0 <= k < |vtx| && vtx[k] == pool[n] {
        WithoutOne(vtx, k);
        var rest := vtx[..k] + vtx[k + 1..];
        forall j | 0 <= j < |rest|
          ensures rest[j] in pool[..n]
        {
          assert rest[j] == if j < k then vtx[j] else vtx[j + 1];
          InPrefix(pool, rest[j]);
        }
        PartSum(pool[..n], rest);
      } else {
        forall j | 0 <= j < |vtx|
          ensures vtx[j] in pool[..n]
        {
          InPrefix(pool, vtx[j]);
        }
        PartSum(pool[..n], vtx);
      }
    }
  }

  lemma InPrefix(pool: seq<Tx>, t: Tx)
    requires |pool| > 0 && t in pool && t != pool[|pool| - 1]
    ensures t in pool[..|pool| - 1]
  {
    assert pool == pool[..|pool| - 1] + [pool[|pool| - 1]];
  }

  lemma {:induction false} NoOtherOps(disk: set<Uint256>, txs: seq<Tx>)
    ensures SumSigOps(txs, Accepting(disk)) == SumOwnOps(txs)
    decreases |txs|
  {
    if |txs| > 0 {
      NoOtherOps(disk, txs[..|txs| - 1]);
    }
  }

  lemma RoomForAll(pool: seq<Tx>, disk: set<Uint256>)
    requires FitsBlock(pool)
    ensures AcceptsAll(pool, Accepting(disk), Roomy(pool))
  {
    hide Latest;
    forall t, vtx, byFee | t in pool && !t.passed && Taken(pool, vtx) && DistinctTxs(vtx) && t.hash !in Hashes(vtx)
      ensures Passes(Accepting(disk), Roomy(pool), t, vtx, byFee)
    {
      NewHash(vtx, t);
      PartSum(pool, vtx + [t]);
      NoOtherOps(disk, vtx);
      assert (vtx + [t])[..|vtx|] == vtx;
    }
  }

  lemma NewHash(vtx: seq<Tx>, t: Tx)
    requires DistinctTxs(vtx) && t.hash !in Hashes(vtx)
    ensures DistinctTxs(vtx + [t])
  {
    forall i | 0 <= i < |vtx|
      ensures vtx[i].hash != t.hash
    {
      assert vtx[i].hash in Hashes(vtx);
    }
  }

  // ----- The condition

  /** Whatever its priorities, fees and checks, no block takes a transaction with such a list. */
  ghost predicate NeverFollows(pool: seq<Tx>, disk: set<Uint256>) {
    forall w: World, l: Limits, turns: seq<Turn> | w.disk == disk && IsRun(pool, w, l, turns) ::
      Hashes(Entered(turns)) !! StaleParents(pool, disk, Hashes(pool))
  }

  lemma NoneReached(pool: seq<Tx>, w: World, l: Limits, turns: seq<Turn>)
    requires NoneEnterable(pool, w.disk) && IsRun(pool, w, l, turns)
    ensures Hashes(Entered(turns)) !! StaleParents(pool, w.disk, Hashes(pool))
  {
    hide IsRun, Hashes, Entered, StaleParents, Enterable;
    RunBlock(pool, w, l, turns);
    forall h | h in Hashes(Entered(turns))
      ensures h !in StaleParents(pool, w.disk, Hashes(pool))
    {
      BlockEnterable(pool, w.disk, Entered(turns), h);
    }
  }

  lemma SomeReached(pool: seq<Tx>, w: World, l: Limits, turns: seq<Turn>)
    requires DistinctTxs(pool) && !NoneEnterable(pool, w.disk) && AcceptsAll(pool, w, l)
    requires IsRun(pool, w, l, turns) && IsOver(pool, w, turns)
    ensures !(Hashes(Entered(turns)) !! StaleParents(pool, w.disk, Hashes(pool)))
  {
    hide IsRun, IsOver, Hashes, Entered, StaleParents, Enterable, DistinctTxs, AcceptsAll;
    var h :| h in StaleParents(pool, w.disk, Hashes(pool)) && Enterable(h, pool, w.disk);
    AllAdded(pool, w, l, turns);
    AllEnter(pool, w, turns, h);
    assert h in Hashes(Entered(turns)) * StaleParents(pool, w.disk, Hashes(pool));
  }

  /** For a pool that fits a block: no block reaches a pointer to a dropped orphan, under any
      priorities, fees, checks and limits, just when no transaction with one in its list may enter. */
  lemma NeverFollowsExactly(pool: seq<Tx>, disk: set<Uint256>)
    requires DistinctTxs(pool) && FitsBlock(pool)
    ensures NeverFollows(pool, disk) <==> NoneEnterable(pool, disk)
  {
    hide NoneEnterable, IsRun, IsOver, FitsBlock, Accepting, Roomy;
    if NoneEnterable(pool, disk) {
      forall w: World, l: Limits, turns: seq<Turn> | w.disk == disk && IsRun(pool, w, l, turns)
        ensures Hashes(Entered(turns)) !! StaleParents(pool, disk, Hashes(pool))
      {
        NoneReached(pool, w, l, turns);
      }
    } else {
      var w, l := Accepting(disk), Roomy(pool);
      RoomForAll(pool, disk);
      EmptyRun(pool, w, l);
      var turns := RunToEnd(pool, w, l, []);
      AcceptingDisk(disk);
      SomeReached(pool, w, l, turns);
    }
  }

  lemma EmptyRun(pool: seq<Tx>, w: World, l: Limits)
    ensures IsRun(pool, w, l, [])
  {
  }

  lemma AcceptingDisk(disk: set<Uint256>)
    ensures Accepting(disk).disk == disk
  {
  }

  // ----- A pool for which it happens

  /** P spends 10, which is on disk; T spends P, and 99, which is nowhere. */
  const P: Tx := Tx(1, [10], 250, 1, 0, false)
  const T: Tx := Tx(2, [1, 99], 250, 1, 0, false)

  lemma TwoFit()
    ensures FitsBlock([P, T])
  {
    OneSum(P);
    assert [P, T][..1] == [P];
  }

  lemma OneSum(t: Tx)
    ensures SumSize([t]) == t.size && SumOwnOps([t]) == t.sigOps
  {
    assert [t][..0] == [];
  }

  lemma SecondMissing(a: Uint256, b: Uint256, disk: set<Uint256>, known: set<Uint256>)
    requires a in known && b !in disk && b !in known
    ensures FirstMissing([a, b], disk, known) == 1
  {
    assert [a, b][1..] == [b];
    assert FirstMissing([b], disk, known) == 0;
  }

  lemma FollowedExample()
    ensures DistinctTxs([P, T]) && FitsBlock([P, T])
    ensures 1 in StaleParents([P, T], {10}, Hashes([P, T])) && !NoneEnterable([P, T], {10})
  {
    TwoFit();
    hide FitsBlock;
    var pool, disk := [P, T], {10};
    var known := Hashes(pool);
    assert pool[0].hash in known && 99 !in known;
    SecondMissing(1, 99, disk, known);
    assert T.inputs[..1] == [1];
    assert T.(inputs := [1]).inputs[0] in Parents(T.(inputs := [1]), disk);
    assert 1 in LeftBehind(pool[1], disk, known);
    forall s: set<Uint256> | ClosedUnder(s, pool, disk)
      ensures 1 in s
    {
      assert Parents(P, disk) == {};
      assert P in pool;
    }
    assert Enterable(1, pool, disk);
  }
}
