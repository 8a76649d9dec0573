/** What a block may take from the memory pool, and in which order: one transaction after the
    other, each unbeaten by all others whose parents are in the block. */
module BlockSpec {
  import opened Basics

  const MAX_BLOCK_SIZE: nat := 1000000
  const MAX_BLOCK_SIGOPS: nat := 20000
  const COIN: nat := 100000000

  /** A transaction of the pool; `inputs` are the transactions it spends from. `passed` is for
      coinbase, coinstake and not final ones, which a block does not take from the pool. */
  datatype Tx = Tx(hash: Uint256, inputs: seq<Uint256>, size: nat, sigOps: nat, time: nat, passed: bool)

  /** A place in the priority queue. */
  datatype Entry = Entry(priority: real, feePerKb: real, tx: Tx)

  /** What the code asks others for. `disk` are the transactions that can be read from disk. */
  datatype World = World(
    disk: set<Uint256>,
    priority: Tx -> real,
    feePerKb: Tx -> real,
    minFee: (Tx, nat) -> int,
    fees: Tx -> int,
    p2shSigOps: Tx -> nat,
    fetchOk: (Tx, set<Uint256>) -> bool,
    connectOk: (Tx, set<Uint256>) -> bool)

  datatype Limits = Limits(nBlockMaxSize: nat, nBlockPrioritySize: nat, nBlockMinSize: nat, nMinTxFee: real,
                           adjustedTime: nat, fProofOfStake: bool, coinbaseTime: nat)

  /** The limits from the arguments of the program. */
  function Bounded(maxSize: nat, prioritySize: nat, minSize: nat, l: Limits): (r: Limits)
    ensures 1000 <= r.nBlockMaxSize <= MAX_BLOCK_SIZE - 1000
    ensures r.nBlockPrioritySize <= r.nBlockMaxSize && r.nBlockMinSize <= r.nBlockMaxSize
    ensures 1000 <= maxSize <= MAX_BLOCK_SIZE - 1000 ==> r.nBlockMaxSize == maxSize
    ensures maxSize < 1000 ==> r.nBlockMaxSize == 1000
    ensures maxSize > MAX_BLOCK_SIZE - 1000 ==> r.nBlockMaxSize == MAX_BLOCK_SIZE - 1000
    ensures r.nBlockPrioritySize == prioritySize || (r.nBlockPrioritySize == r.nBlockMaxSize && prioritySize > r.nBlockMaxSize)
    ensures r.nBlockMinSize == minSize || (r.nBlockMinSize == r.nBlockMaxSize && minSize > r.nBlockMaxSize)
    ensures r.nMinTxFee == l.nMinTxFee && r.adjustedTime == l.adjustedTime
    ensures r.fProofOfStake == l.fProofOfStake && r.coinbaseTime == l.coinbaseTime
  {
    var m := Max(1000, Min(MAX_BLOCK_SIZE - 1000, maxSize));
    l.(nBlockMaxSize := m, nBlockPrioritySize := Min(m, prioritySize), nBlockMinSize := Min(m, minSize))
  }

  // ----- The pool

  /** The transactions of the pool that a transaction spends. */
  function Parents(tx: Tx, disk: set<Uint256>): set<Uint256> {
    set i | 0 <= i < |tx.inputs| && tx.inputs[i] !in disk :: tx.inputs[i]
  }

  function Hashes(txs: seq<Tx>): set<Uint256> {
    set i | 0 <= i < |txs| :: txs[i].hash
  }

  ghost predicate DistinctTxs(txs: seq<Tx>) {
    forall i, j | 0 <= i < j < |txs| :: txs[i].hash != txs[j].hash
  }

  /** The first input that is neither on disk nor in the pool, or the number of inputs. */
  function FirstMissing(inputs: seq<Uint256>, disk: set<Uint256>, known: set<Uint256>): (m: nat)
    ensures m <= |inputs|
    ensures forall i | 0 <= i < m :: inputs[i] in disk || inputs[i] in known
    ensures m < |inputs| ==> inputs[m] !in disk && inputs[m] !in known
  {
    if |inputs| == 0 || (inputs[0] !in disk && inputs[0] !in known) then 0
    else 1 + FirstMissing(inputs[1..], disk, known)
  }

  /** A transaction that the block may take: every input is on disk or in the pool. */
  predicate MayEnter(t: Tx, disk: set<Uint256>, known: set<Uint256>) {
    !t.passed && FirstMissing(t.inputs, disk, known) == |t.inputs|
  }

  /** The transactions of the pool that a transaction with a missing input spends before that one:
      a pointer to it is left in the list of each. */
  function LeftBehind(t: Tx, disk: set<Uint256>, known: set<Uint256>): set<Uint256> {
    if t.passed || MayEnter(t, disk, known) then {}
    else Parents(t.(inputs := t.inputs[..FirstMissing(t.inputs, disk, known)]), disk)
  }

  ghost function StaleParents(txs: seq<Tx>, disk: set<Uint256>, known: set<Uint256>): set<Uint256> {
    set n, h | 0 <= n < |txs| && h in LeftBehind(txs[n], disk, known) :: h
  }

  /** A pool whose inputs are all on disk or in the pool leaves no pointers behind. */
  lemma ClosedPool(pool: seq<Tx>, disk: set<Uint256>)
    requires forall n | 0 <= n < |pool| :: pool[n].passed || MayEnter(pool[n], disk, Hashes(pool))
    ensures StaleParents(pool, disk, Hashes(pool)) == {}
  {
    hide Hashes, MayEnter;
  }

  lemma HashesNext(pool: seq<Tx>, n: nat)
    requires n < |pool|
    ensures Hashes(pool[..n + 1]) == Hashes(pool[..n]) + {pool[n].hash}
  {
    var s, t := pool[..n], pool[..n + 1];
    forall h
      ensures h in Hashes(t) <==> h in Hashes(s) + {pool[n].hash}
    {
      if k :| 0 <= k < |s| && s[k].hash == h {
        assert t[k].hash == h;
      }
      if h == pool[n].hash {
        assert t[n].hash == h;
      }
    }
  }

  // ----- The block

  function SumSize(txs: seq<Tx>): nat {
    if |txs| == 0 then 0 else SumSize(txs[..|txs| - 1]) + txs[|txs| - 1].size
  }

  function SumSigOps(txs: seq<Tx>, w: World): nat {
    if |txs| == 0 then 0
    else SumSigOps(txs[..|txs| - 1], w) + txs[|txs| - 1].sigOps + (w.p2shSigOps)(txs[|txs| - 1])
  }

  function SumFees(txs: seq<Tx>, w: World): int {
    if |txs| == 0 then 0 else SumFees(txs[..|txs| - 1], w) + (w.fees)(txs[|txs| - 1])
  }

  /** The transactions come after all those of the pool that they spend. */
  ghost predicate ParentsFirst(txs: seq<Tx>, disk: set<Uint256>) {
    forall j | 0 <= j < |txs| :: Parents(txs[j], disk) <= Hashes(txs[..j])
  }

  /** The block so far: each transaction once, parents first, and the totals those of its transactions. */
  ghost predicate BlockOk(w: World, l: Limits, vtx: seq<Tx>, nBlockSize: nat, nBlockSigOps: nat, nFees: int) {
    && DistinctTxs(vtx) && ParentsFirst(vtx, w.disk)
    && nBlockSize == 1000 + SumSize(vtx) && (|vtx| > 0 ==> nBlockSize < l.nBlockMaxSize)
    && nBlockSigOps == 100 + SumSigOps(vtx, w) && nBlockSigOps < MAX_BLOCK_SIGOPS
    && nFees == SumFees(vtx, w)
  }

  lemma EnterOne(vtx: seq<Tx>, t: Tx, disk: set<Uint256>)
    requires DistinctTxs(vtx) && t.hash !in Hashes(vtx) && ParentsFirst(vtx, disk) && Parents(t, disk) <= Hashes(vtx)
    ensures DistinctTxs(vtx + [t]) && ParentsFirst(vtx + [t], disk) && Hashes(vtx + [t]) == Hashes(vtx) + {t.hash}
  {
    hide Parents;
    var next := vtx + [t];
    assert next[..|vtx|] == vtx && next[..|vtx| + 1] == next;
    HashesNext(next, |vtx|);
    forall j | 0 <= j < |next|
      ensures Parents(next[j], disk) <= Hashes(next[..j])
    {
      if j < |vtx| {
        assert next[..j] == vtx[..j];
      }
    }
    forall i, j | 0 <= i < j < |next|
      ensures next[i].hash != next[j].hash
    {
      if j == |vtx| {
        assert vtx[i].hash in Hashes(vtx);
      }
    }
  }

  lemma BlockGrows(w: World, l: Limits, vtx: seq<Tx>, nBlockSize: nat, nBlockSigOps: nat, nFees: int, tx: Tx)
    requires BlockOk(w, l, vtx, nBlockSize, nBlockSigOps, nFees)
    requires tx.hash !in Hashes(vtx) && Parents(tx, w.disk) <= Hashes(vtx)
    requires nBlockSize + tx.size < l.nBlockMaxSize
    requires nBlockSigOps + tx.sigOps + (w.p2shSigOps)(tx) < MAX_BLOCK_SIGOPS
    ensures BlockOk(w, l, vtx + [tx], nBlockSize + tx.size, nBlockSigOps + tx.sigOps + (w.p2shSigOps)(tx), nFees + (w.fees)(tx))
    ensures Hashes(vtx + [tx]) == Hashes(vtx) + {tx.hash}
  {
    hide Parents, Hashes, DistinctTxs, ParentsFirst;
    EnterOne(vtx, tx, w.disk);
    assert (vtx + [tx])[..|vtx|] == vtx;
  }

  ghost predicate Taken(pool: seq<Tx>, vtx: seq<Tx>) {
    forall j | 0 <= j < |vtx| :: vtx[j] in pool && !vtx[j].passed
  }

  // ----- The checks

  function EntryOf(w: World, t: Tx): Entry {
    Entry(w.priority(t), w.feePerKb(t), t)
  }

  /** The comparer of the heap, by fee or by priority first. */
  predicate Less(byFee: bool, a: Entry, b: Entry) {
    if byFee then
      if a.feePerKb == b.feePerKb then a.priority < b.priority else a.feePerKb < b.feePerKb
    else
      if a.priority == b.priority then a.feePerKb < b.feePerKb else a.priority < b.priority
  }

  predicate InTime(l: Limits, t: Tx) {
    t.time <= l.adjustedTime && (l.fProofOfStake ==> t.time <= l.coinbaseTime)
  }

  /** A transaction passes all the checks, at the given state of the block. */
  predicate Fits(w: World, l: Limits, e: Entry, size: nat, sigOps: nat, byFee: bool, included: set<Uint256>) {
    && size + e.tx.size < l.nBlockMaxSize
    && sigOps + e.tx.sigOps + (w.p2shSigOps)(e.tx) < MAX_BLOCK_SIGOPS
    && InTime(l, e.tx)
    && (byFee && e.feePerKb < l.nMinTxFee ==> size + e.tx.size < l.nBlockMinSize)
    && (w.fetchOk)(e.tx, included) && (w.fees)(e.tx) >= (w.minFee)(e.tx, size) && (w.connectOk)(e.tx, included)
  }

  // ----- Runs

  /** One transaction in its turn: the comparer in force, and whether it enters the block. */
  datatype Turn = Turn(tx: Tx, byFee: bool, added: bool)

  /** The transactions that entered. */
  function Entered(turns: seq<Turn>): seq<Tx> {
    if |turns| == 0 then []
    else
      var last := turns[|turns| - 1];
      Entered(turns[..|turns| - 1]) + if last.added then [last.tx] else []
  }

  /** The hashes of those that had their turn. */
  function Seen(turns: seq<Turn>): set<Uint256> {
    if |turns| == 0 then {} else Seen(turns[..|turns| - 1]) + {turns[|turns| - 1].tx.hash}
  }

  function SizeOf(vtx: seq<Tx>): nat { 1000 + SumSize(vtx) }
  function OpsOf(vtx: seq<Tx>, w: World): nat { 100 + SumSigOps(vtx, w) }

  /** A transaction that passes the limits on size, operations and time, but is past the part of the
      block that goes by priority. */
  predicate Switches(w: World, l: Limits, e: Entry, size: nat, sigOps: nat) {
    && size + e.tx.size < l.nBlockMaxSize && sigOps + e.tx.sigOps < MAX_BLOCK_SIGOPS && InTime(l, e.tx)
    && (size + e.tx.size >= l.nBlockPrioritySize || e.priority < (COIN * 144 / 250) as real)
  }

  /** From the first such transaction on, or from the start, the comparer goes by fee. */
  predicate ByFee(w: World, l: Limits, turns: seq<Turn>) {
    if |turns| == 0 then l.nBlockPrioritySize <= 0
    else
      var before, t := turns[..|turns| - 1], turns[|turns| - 1].tx;
      ByFee(w, l, before) || Switches(w, l, EntryOf(w, t), SizeOf(Entered(before)), OpsOf(Entered(before), w))
  }

  /** It has not had its turn yet, and all its parents are in the block. */
  predicate IsReady(pool: seq<Tx>, w: World, turns: seq<Turn>, t: Tx) {
    && t in pool && !t.passed && t.hash !in Seen(turns)
    && Parents(t, w.disk) <= Hashes(Entered(turns))
  }

  /** The next turn: of a ready transaction that no other ready one beats under the comparer. It
      enters just when it passes all checks. */
  ghost predicate IsTurn(pool: seq<Tx>, w: World, l: Limits, turns: seq<Turn>, next: Turn) {
    && next.byFee == ByFee(w, l, turns)
    && IsReady(pool, w, turns, next.tx)
    && (forall t | IsReady(pool, w, turns, t) :: !Less(next.byFee, EntryOf(w, next.tx), EntryOf(w, t)))
    && next.added == Passes(w, l, next.tx, Entered(turns), next.byFee)
  }

  /** `t` passes all checks on top of `vtx`. */
  predicate Passes(w: World, l: Limits, t: Tx, vtx: seq<Tx>, byFee: bool) {
    Fits(w, l, EntryOf(w, t), SizeOf(vtx), OpsOf(vtx, w), byFee, Hashes(vtx))
  }

  ghost predicate IsRun(pool: seq<Tx>, w: World, l: Limits, turns: seq<Turn>) {
    |turns| > 0 ==>
      var n := |turns| - 1;
      IsRun(pool, w, l, turns[..n]) && IsTurn(pool, w, l, turns[..n], turns[n])
  }

  /** Nothing is left to take. */
  ghost predicate IsOver(pool: seq<Tx>, w: World, turns: seq<Turn>) {
    forall t :: !IsReady(pool, w, turns, t)
  }

  lemma RunNext(pool: seq<Tx>, w: World, l: Limits, turns: seq<Turn>, next: Turn)
    requires IsRun(pool, w, l, turns) && IsTurn(pool, w, l, turns, next)
    ensures IsRun(pool, w, l, turns + [next])
    ensures Entered(turns + [next]) == Entered(turns) + if next.added then [next.tx] else []
    ensures Seen(turns + [next]) == Seen(turns) + {next.tx.hash}
    ensures ByFee(w, l, turns + [next])
            == (ByFee(w, l, turns)
                || Switches(w, l, EntryOf(w, next.tx), SizeOf(Entered(turns)), OpsOf(Entered(turns), w)))
  {
    hide IsTurn, Switches, Parents;
    assert (turns + [next])[..|turns|] == turns;
  }

  lemma {:induction false} RunPrefix(pool: seq<Tx>, w: World, l: Limits, turns: seq<Turn>, n: nat)
    requires IsRun(pool, w, l, turns) && n <= |turns|
    ensures IsRun(pool, w, l, turns[..n])
    ensures n < |turns| ==> IsTurn(pool, w, l, turns[..n], turns[n])
    decreases |turns|
  {
    hide IsTurn;
    if n == |turns| {
      assert turns[..n] == turns;
    } else if n < |turns| - 1 {
      RunPrefix(pool, w, l, turns[..|turns| - 1], n);
      assert turns[..|turns| - 1][..n] == turns[..n];
    }
  }

  // ----- Runs are determined

  /** Under either comparer, one of two transactions beats the other. */
  ghost predicate NoTies(pool: seq<Tx>, w: World) {
    forall byFee: bool, t, u | t in pool && u in pool && t != u ::
      Less(byFee, EntryOf(w, t), EntryOf(w, u)) || Less(byFee, EntryOf(w, u), EntryOf(w, t))
  }

  lemma OneTurn(pool: seq<Tx>, w: World, l: Limits, turns: seq<Turn>, a: Turn, b: Turn)
    requires NoTies(pool, w) && IsTurn(pool, w, l, turns, a) && IsTurn(pool, w, l, turns, b)
    ensures a == b
  {
    hide Less, Passes, ByFee, Seen, Entered, Parents;
    assert a.tx == b.tx;
  }

  lemma {:induction false} RunsAgree(pool: seq<Tx>, w: World, l: Limits, a: seq<Turn>, b: seq<Turn>)
    requires NoTies(pool, w) && IsRun(pool, w, l, a) && IsRun(pool, w, l, b) && |a| <= |b|
    ensures b[..|a|] == a
    decreases |a|
  {
    hide NoTies, IsTurn;
    if |a| > 0 {
      var n := |a| - 1;
      RunsAgree(pool, w, l, a[..n], b);
      RunPrefix(pool, w, l, b, n);
      OneTurn(pool, w, l, a[..n], a[n], b[n]);
      assert b[..|a|] == b[..n] + [b[n]] && a == a[..n] + [a[n]];
    }
  }

  /** Without ties there is one block. */
  lemma OneBlock(pool: seq<Tx>, w: World, l: Limits, a: seq<Turn>, b: seq<Turn>)
    requires NoTies(pool, w) && IsRun(pool, w, l, a) && IsRun(pool, w, l, b)
    requires IsOver(pool, w, a) && IsOver(pool, w, b)
    ensures a == b
  {
    if |a| <= |b| {
      NothingAfter(pool, w, l, a, b);
    } else {
      NothingAfter(pool, w, l, b, a);
    }
  }

  lemma NothingAfter(pool: seq<Tx>, w: World, l: Limits, a: seq<Turn>, b: seq<Turn>)
    requires NoTies(pool, w) && IsRun(pool, w, l, a) && IsRun(pool, w, l, b) && |a| <= |b| && IsOver(pool, w, a)
    ensures a == b
  {
    hide NoTies, IsReady, IsRun;
    RunsAgree(pool, w, l, a, b);
    RunPrefix(pool, w, l, b, |a|);
    if |a| < |b| {
      assert false;
    }
  }

  // ----- What a run leaves out

  /** In its turn, with its parents in the block, it did not pass the checks. */
  ghost predicate RefusedInTurn(pool: seq<Tx>, w: World, l: Limits, turns: seq<Turn>, t: Tx) {
    exists n :: 0 <= n < |turns| && RefusedAt(w, l, turns, n, t)
  }

  ghost predicate RefusedAt(w: World, l: Limits, turns: seq<Turn>, n: nat, t: Tx)
    requires n < |turns|
  {
    var before := turns[..n];
    && turns[n].tx == t && Parents(t, w.disk) <= Hashes(Entered(before))
    && turns[n].byFee == ByFee(w, l, before)
    && !Passes(w, l, t, Entered(before), ByFee(w, l, before))
  }

  /** In the end: a transaction of the pool is in the block, or was refused in its turn, or spends
      one of the pool that is not in the block. */
  ghost predicate Complete(pool: seq<Tx>, w: World, l: Limits, turns: seq<Turn>) {
    forall t | t in pool && !t.passed ::
      || t.hash in Hashes(Entered(turns))
      || RefusedInTurn(pool, w, l, turns, t)
      || !(Parents(t, w.disk) <= Hashes(Entered(turns)))
  }

  lemma {:induction false} SeenTurn(turns: seq<Turn>, h: Uint256) returns (n: nat)
    requires h in Seen(turns)
    ensures n < |turns| && turns[n].tx.hash == h
  {
    n := |turns| - 1;
    if turns[n].tx.hash != h {
      n := SeenTurn(turns[..n], h);
    }
  }

  lemma {:induction false} EnteredAt(turns: seq<Turn>, n: nat)
    requires n < |turns| && turns[n].added
    ensures turns[n].tx.hash in Hashes(Entered(turns))
  {
    var k := |turns| - 1;
    var before, vtx := Entered(turns[..k]), Entered(turns);
    if n == k {
      assert vtx[|before|].hash == turns[n].tx.hash;
    } else {
      EnteredAt(turns[..k], n);
      var j :| 0 <= j < |before| && before[j].hash == turns[n].tx.hash;
      assert vtx[j].hash == turns[n].tx.hash;
    }
  }

  lemma SameTx(pool: seq<Tx>, t: Tx, u: Tx)
    requires DistinctTxs(pool) && t in pool && u in pool && t.hash == u.hash
    ensures t == u
  {
  }

  /** A run that is over leaves nothing out without a reason. */
  lemma RunComplete(pool: seq<Tx>, w: World, l: Limits, turns: seq<Turn>)
    requires DistinctTxs(pool) && IsRun(pool, w, l, turns) && IsOver(pool, w, turns)
    ensures Complete(pool, w, l, turns)
  {
    hide Parents, Hashes, Passes, ByFee, Entered, Seen, IsRun, DistinctTxs, Less;
    forall t | t in pool && !t.passed && t.hash !in Hashes(Entered(turns)) && Parents(t, w.disk) <= Hashes(Entered(turns))
      ensures RefusedInTurn(pool, w, l, turns, t)
    {
      assert !IsReady(pool, w, turns, t);
      var n := SeenTurn(turns, t.hash);
      RunPrefix(pool, w, l, turns, n);
      SameTx(pool, t, turns[n].tx);
      if turns[n].added {
        EnteredAt(turns, n);
      }
      assert RefusedAt(w, l, turns, n, t);
    }
  }

  /** And the other way round: what is refused in its turn, or spends what is left out, is not in. */
  lemma LeftOutIsOut(pool: seq<Tx>, w: World, l: Limits, turns: seq<Turn>, t: Tx)
    requires DistinctTxs(pool) && IsRun(pool, w, l, turns) && t in pool
    requires RefusedInTurn(pool, w, l, turns, t) || !(Parents(t, w.disk) <= Hashes(Entered(turns)))
    ensures t.hash !in Hashes(Entered(turns))
  {
    hide Parents, Hashes, Passes, ByFee, Entered, Seen, IsRun, DistinctTxs, Less;
    if t.hash in Hashes(Entered(turns)) {
      var n := EnteredTurn(turns, t.hash);
      RunPrefix(pool, w, l, turns, n);
      SameTx(pool, t, turns[n].tx);
      HashesGrow(turns, n);
      if m :| 0 <= m < |turns| && RefusedAt(w, l, turns, m, t) {
        OneTurnEach(pool, w, l, turns, m, n);
      }
    }
  }

  lemma {:induction false} EnteredTurn(turns: seq<Turn>, h: Uint256) returns (n: nat)
    requires h in Hashes(Entered(turns))
    ensures n < |turns| && turns[n].added && turns[n].tx.hash == h
  {
    n := |turns| - 1;
    var before, vtx := Entered(turns[..n]), Entered(turns);
    if !(turns[n].added && turns[n].tx.hash == h) {
      var j :| 0 <= j < |vtx| && vtx[j].hash == h;
      assert j < |before| && before[j].hash == h;
      n := EnteredTurn(turns[..n], h);
    }
  }

  lemma {:induction false} HashesGrow(turns: seq<Turn>, n: nat)
    requires n <= |turns|
    ensures Hashes(Entered(turns[..n])) <= Hashes(Entered(turns))
  {
    var k := |turns| - 1;
    if n == |turns| {
      assert turns[..n] == turns;
    } else {
      HashesGrow(turns[..k], n);
      assert turns[..k][..n] == turns[..n];
      var before, vtx := Entered(turns[..k]), Entered(turns);
      forall h | h in Hashes(before)
        ensures h in Hashes(vtx)
      {
        var j :| 0 <= j < |before| && before[j].hash == h;
        assert vtx[j].hash == h;
      }
    }
  }

  lemma {:induction false} SeenAt(turns: seq<Turn>, m: nat, n: nat)
    requires m < n <= |turns|
    ensures turns[m].tx.hash in Seen(turns[..n])
    decreases n
  {
    assert turns[..n][..n - 1] == turns[..n - 1];
    if m < n - 1 {
      SeenAt(turns, m, n - 1);
    }
  }

  /** A transaction has one turn. */
  lemma OneTurnEach(pool: seq<Tx>, w: World, l: Limits, turns: seq<Turn>, m: nat, n: nat)
    requires IsRun(pool, w, l, turns) && m < |turns| && n < |turns| && turns[m].tx.hash == turns[n].tx.hash
    ensures m == n
  {
    hide IsRun, Seen, Entered, Parents, Less, Passes, ByFee;
    RunPrefix(pool, w, l, turns, m);
    RunPrefix(pool, w, l, turns, n);
    if m < n {
      SeenAt(turns, m, n);
    } else if n < m {
      SeenAt(turns, n, m);
    }
  }
}
