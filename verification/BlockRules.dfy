/** What the turns of block assembly come to, in terms of priorities, fees and the block itself. */
module BlockRules {
  import opened Basics
  import opened BlockSpec

  // ----- The order of the turns

  /** While the block goes by priority, each turn is of a transaction with the highest priority of all
      that are ready, and the highest fee of those; once it goes by fee, the other way round. */
  lemma TurnIsHighest(pool: seq<Tx>, w: World, l: Limits, turns: seq<Turn>, n: nat, t: Tx)
    requires IsRun(pool, w, l, turns) && n < |turns| && IsReady(pool, w, turns[..n], t)
    ensures var u := turns[n].tx;
            IsReady(pool, w, turns[..n], u)
            && if turns[n].byFee
               then w.feePerKb(t) <= w.feePerKb(u) && (w.feePerKb(t) == w.feePerKb(u) ==> w.priority(t) <= w.priority(u))
               else w.priority(t) <= w.priority(u) && (w.priority(t) == w.priority(u) ==> w.feePerKb(t) <= w.feePerKb(u))
  {
    hide IsReady, Passes, ByFee, IsRun;
    RunPrefix(pool, w, l, turns, n);
  }

  /** What is ready: a transaction of the pool that had no turn yet and spends only from what is on disk
      and in the block. */
  lemma ReadyExactly(pool: seq<Tx>, w: World, turns: seq<Turn>, t: Tx)
    requires DistinctTxs(pool) && forall n | 0 <= n < |turns| :: turns[n].tx in pool
    ensures IsReady(pool, w, turns, t) <==>
              && t in pool && !t.passed && (forall n | 0 <= n < |turns| :: turns[n].tx != t)
              && forall i | 0 <= i < |t.inputs| ::
                   t.inputs[i] in w.disk || exists n :: 0 <= n < |turns| && turns[n].added && turns[n].tx.hash == t.inputs[i]
  {
    hide Hashes, Entered, Seen, DistinctTxs;
    if t in pool {
      if t.hash in Seen(turns) {
        var n := SeenTurn(turns, t.hash);
        SameTx(pool, t, turns[n].tx);
      }
      forall n | 0 <= n < |turns| && turns[n].tx == t
        ensures t.hash in Seen(turns)
      {
        SeenAll(turns, n);
      }
      forall i | 0 <= i < |t.inputs|
        ensures t.inputs[i] in Hashes(Entered(turns))
                <==> exists n :: 0 <= n < |turns| && turns[n].added && turns[n].tx.hash == t.inputs[i]
      {
        EnteredExactly(turns, t.inputs[i]);
      }
      assert forall i | 0 <= i < |t.inputs| && t.inputs[i] !in w.disk :: t.inputs[i] in Parents(t, w.disk);
    }
  }

  lemma SeenAll(turns: seq<Turn>, n: nat)
    requires n < |turns|
    ensures turns[n].tx.hash in Seen(turns)
  {
    SeenAt(turns, n, |turns|);
    assert turns[..|turns|] == turns;
  }

  lemma EnteredExactly(turns: seq<Turn>, h: Uint256)
    ensures h in Hashes(Entered(turns)) <==> exists n :: 0 <= n < |turns| && turns[n].added && turns[n].tx.hash == h
  {
    hide Hashes, Entered;
    if h in Hashes(Entered(turns)) {
      var n := EnteredTurn(turns, h);
    } else if n :| 0 <= n < |turns| && turns[n].added && turns[n].tx.hash == h {
      EnteredAt(turns, n);
    }
  }

  // ----- From priority to fee

  /** A transaction that is past the part that goes by priority. It is not too large or too late, but it would
      fill that part or has a priority below 57600000. */
  ghost predicate Past(w: World, l: Limits, vtx: seq<Tx>, t: Tx) {
    && SizeOf(vtx) + t.size < l.nBlockMaxSize && OpsOf(vtx, w) + t.sigOps < 20000
    && t.time <= l.adjustedTime && (l.fProofOfStake ==> t.time <= l.coinbaseTime)
    && (SizeOf(vtx) + t.size >= l.nBlockPrioritySize || w.priority(t) < 57600000.0)
  }

  /** The turns go by fee from the start if no part is to go by priority, and after the first
      transaction past that part. */
  lemma {:induction false} ByFeeExactly(pool: seq<Tx>, w: World, l: Limits, turns: seq<Turn>, n: nat)
    requires IsRun(pool, w, l, turns) && n < |turns|
    ensures turns[n].byFee <==>
              l.nBlockPrioritySize == 0 || exists m :: 0 <= m < n && Past(w, l, Entered(turns[..m]), turns[m].tx)
  {
    hide IsRun, IsReady, Passes, Less, Past;
    RunPrefix(pool, w, l, turns, n);
    FeeHistory(w, l, turns[..n]);
    assert forall m | 0 <= m < n :: turns[..n][..m] == turns[..m];
  }

  lemma {:induction false} FeeHistory(w: World, l: Limits, turns: seq<Turn>)
    ensures ByFee(w, l, turns) <==>
              l.nBlockPrioritySize == 0 || exists m :: 0 <= m < |turns| && Past(w, l, Entered(turns[..m]), turns[m].tx)
    decreases |turns|
  {
    hide Switches, Past, Entered;
    if |turns| > 0 {
      var k := |turns| - 1;
      FeeHistory(w, l, turns[..k]);
      assert forall m | 0 <= m < k :: turns[..k][..m] == turns[..m];
      PastSwitches(w, l, Entered(turns[..k]), turns[k].tx);
      if m :| 0 <= m < |turns| && Past(w, l, Entered(turns[..m]), turns[m].tx) && m < k {
        assert Past(w, l, Entered(turns[..k][..m]), turns[..k][m].tx);
      }
    }
  }

  lemma PastSwitches(w: World, l: Limits, vtx: seq<Tx>, t: Tx)
    ensures Past(w, l, vtx, t) <==> Switches(w, l, EntryOf(w, t), SizeOf(vtx), OpsOf(vtx, w))
  {
  }

  // ----- Entering the block

  /** A transaction enters in its turn just when the block with it keeps the limits, below the minimum size if
      it goes by fee and the fee is low, its time has come, and its inputs and fee are right. */
  lemma EntersExactly(pool: seq<Tx>, w: World, l: Limits, turns: seq<Turn>, n: nat)
    requires IsRun(pool, w, l, turns) && n < |turns|
    ensures var t, vtx := turns[n].tx, Entered(turns[..n]);
            turns[n].added <==>
              && SizeOf(vtx + [t]) < l.nBlockMaxSize && OpsOf(vtx + [t], w) < 20000
              && t.time <= l.adjustedTime && (l.fProofOfStake ==> t.time <= l.coinbaseTime)
              && (turns[n].byFee && w.feePerKb(t) < l.nMinTxFee ==> SizeOf(vtx + [t]) < l.nBlockMinSize)
              && (w.fetchOk)(t, Hashes(vtx)) && (w.fees)(t) >= (w.minFee)(t, SizeOf(vtx)) && (w.connectOk)(t, Hashes(vtx))
  {
    hide IsRun, IsReady, ByFee, Less, Entered, Hashes;
    RunPrefix(pool, w, l, turns, n);
    var t, vtx := turns[n].tx, Entered(turns[..n]);
    TotalsWith(w, vtx, t);
  }

  /** The block and its header count 1000 bytes and 100 operations at the start, and then each transaction. */
  lemma TotalsWith(w: World, vtx: seq<Tx>, t: Tx)
    ensures SizeOf([]) == 1000 && OpsOf([], w) == 100
    ensures SizeOf(vtx + [t]) == SizeOf(vtx) + t.size
    ensures OpsOf(vtx + [t], w) == OpsOf(vtx, w) + t.sigOps + (w.p2shSigOps)(t)
    ensures SumFees(vtx + [t], w) == SumFees(vtx, w) + (w.fees)(t)
  {
    assert (vtx + [t])[..|vtx|] == vtx;
  }

  /** As long as turns go by priority, the block stays within the part for that, and all of it has a
      priority of 57600000 or more. */
  lemma {:induction false} PriorityPart(pool: seq<Tx>, w: World, l: Limits, turns: seq<Turn>, n: nat)
    requires IsRun(pool, w, l, turns) && n < |turns| && !turns[n].byFee
    ensures |Entered(turns[..n])| > 0 ==> SizeOf(Entered(turns[..n])) < l.nBlockPrioritySize
    ensures forall t | t in Entered(turns[..n]) :: w.priority(t) >= 57600000.0
    decreases n
  {
    hide IsRun, Past, SizeOf, OpsOf;
    ByFeeExactly(pool, w, l, turns, n);
    if n > 0 {
      var m := n - 1;
      ByFeeExactly(pool, w, l, turns, m);
      PriorityPart(pool, w, l, turns, m);
      assert turns[..n][..m] == turns[..m];
      if turns[m].added {
        EntersExactly(pool, w, l, turns, m);
        assert !Past(w, l, Entered(turns[..m]), turns[m].tx);
        NotPast(w, l, Entered(turns[..m]), turns[m].tx);
      } else {
        assert Entered(turns[..n]) == Entered(turns[..m]);
      }
    }
  }

  lemma NotPast(w: World, l: Limits, vtx: seq<Tx>, t: Tx)
    requires !Past(w, l, vtx, t) && SizeOf(vtx + [t]) < l.nBlockMaxSize && OpsOf(vtx + [t], w) < 20000
    requires t.time <= l.adjustedTime && (l.fProofOfStake ==> t.time <= l.coinbaseTime)
    ensures SizeOf(vtx + [t]) < l.nBlockPrioritySize && w.priority(t) >= 57600000.0
  {
    TotalsWith(w, vtx, t);
  }
}
