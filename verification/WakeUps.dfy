/** Which threads of the check queue are woken, and what work they then get. */
module WakeUps {
  import Basics
  import Modular
  import opened CheckQueue
  import opened CheckQueueProtocol

  // ----- Notifying the workers

  /** Additions wake workers: one of those asleep for a single check, all of them for more, and
      none of them for nothing. */
  lemma AddWakes<T>(y: System<T>, checks: seq<T>, woken: set<nat>, verdict: T -> bool)
    requires Enabled(y, MasterAdd(checks, woken))
    ensures var y' := Next(y, MasterAdd(checks, woken), verdict);
            && |y'.threads| == |y.threads|
            && (|checks| >= 1 && (exists t :: 1 <= t < |y.threads| && y.threads[t] == Waiting(false)) ==>
                  exists t :: 1 <= t < |y.threads| && y.threads[t] == Waiting(false) && y'.threads[t] == Waiting(true))
            && (|checks| >= 2 ==>
                  forall t | 1 <= t < |y.threads| && y.threads[t] == Waiting(false) :: y'.threads[t] == Waiting(true))
            && (forall t | 0 <= t < |y.threads| && y'.threads[t] != y.threads[t] ::
                  t >= 1 && |checks| >= 1 && y.threads[t] == Waiting(false) && y'.threads[t] == Waiting(true))
            && (|checks| == 1 ==>
                  forall t, u | 0 <= t < u < |y.threads| && y'.threads[t] != y.threads[t] :: y'.threads[u] == y.threads[u])
  {
    var asleep := set t: nat | 1 <= t < |y.threads| && y.threads[t] == Waiting(false);
    if |checks| == 1 {
      if t :| 1 <= t < |y.threads| && y.threads[t] == Waiting(false) {
        assert t in asleep;
        var u :| u in woken;
        assert u in asleep;
      }
      forall t, u | t in woken && u in woken
        ensures t == u
      {
        AtMostOne(woken, t, u);
      }
    } else if |checks| >= 2 {
      assert woken == asleep;
      if t :| 1 <= t < |y.threads| && y.threads[t] == Waiting(false) {
        assert t in woken;
      }
    }
  }

  lemma AtMostOne(s: set<nat>, t: nat, u: nat)
    requires t in s && u in s && |s| <= 1
    ensures t == u
  {
    if t != u {
      assert |s - {t}| >= 1 by {
        assert u in s - {t};
      }
    }
  }

  /** A thread that comes back while checks are queued gets some of them. */
  lemma WokenGetsWork<T>(y: System<T>, t: nat, verdict: T -> bool)
    requires Inv(y, verdict) && t < |y.threads| && y.threads[t].Waiting? && y.s.queue != []
    ensures Enabled(y, Wake(t)) && Next(y, Wake(t), verdict).threads[t].Running?
    ensures Next(y, Wake(t), verdict).threads[t].batch != []
  {
    SumNonNegative(y.threads);
    BatchSizeFits(y.s.(nIdle := y.s.nIdle - 1), y.nBatchSize);
  }

  // ----- Notifying the master

  /** A worker that completes its batch wakes the sleeping master just when every check that was
      added is done. */
  lemma MasterWokenExactly<T>(y: System<T>, t: nat, verdict: T -> bool)
    requires Inv(y, verdict) && Enabled(y, Finish(t)) && t != 0 && y.threads[0] == Waiting(false)
    ensures var y' := Next(y, Finish(t), verdict);
            y'.threads[0] == Waiting(true) <==> y'.done == y'.added
  {
    var batch := y.threads[t].batch;
    hide *;
    FinishParts(y, t, verdict);
    HeldContains(y.threads, t);
    HeldSize(y.threads);
    DoneIsAdded(y, batch);
  }

  lemma FinishParts<T>(y: System<T>, t: nat, verdict: T -> bool)
    requires Inv(y, verdict) && Enabled(y, Finish(t)) && t != 0 && y.threads[0] == Waiting(false)
    ensures var y' := Next(y, Finish(t), verdict);
            && (y'.threads[0] == Waiting(true) <==> y.s.nTodo == |y.threads[t].batch|)
            && y'.added == y.added && y'.done == y.done + multiset(y.threads[t].batch) && |y'.threads| >= 1
    ensures y.added == multiset(y.s.queue) + Held(y.threads) + y.done
    ensures y.s.nTodo == |y.s.queue| + Sum(y.threads, BatchLen)
    ensures t < |y.threads| && Batch(y.threads[t]) == multiset(y.threads[t].batch)
  {
    hide ThreadOk, AllPass, HasFailure, Held, Sum;
  }

  /** Nothing but the batch was left to do just when with it all is done. */
  lemma DoneIsAdded<T>(y: System<T>, batch: seq<T>)
    requires y.added == multiset(y.s.queue) + Held(y.threads) + y.done
    requires y.s.nTodo == |y.s.queue| + |Held(y.threads)| && multiset(batch) <= Held(y.threads)
    ensures y.s.nTodo == |batch| <==> y.done + multiset(batch) == y.added
  {
    hide *;
    var rest := multiset(y.s.queue) + (Held(y.threads) - multiset(batch));
    assert y.added == rest + (y.done + multiset(batch));
    assert |rest| == y.s.nTodo - |batch|;
    if y.done + multiset(batch) == y.added {
      assert |y.added| == |rest| + |y.done + multiset(batch)|;
    }
  }

  // ----- The size of a batch

  /** A batch is the end of the stack, last check first, and starts with what was known to have
      failed. A batch of more than one check is at most the limit and an equal share among the
      threads and one more for each idle one; and unless it is the limit or one check, a larger one
      would be more than that share. */
  lemma BatchIsShare<T>(s: Shared<T>, fMaster: bool, nBatchSize: nat)
    requires s.nTotal >= 0 && s.nIdle >= 0 && s.queue != []
    ensures var r := Decide(s, fMaster, nBatchSize).1;
            var n := s.nTotal + s.nIdle + 1;
            && r.Takes? && r.fOk == s.fAllOk && 1 <= |r.batch| <= |s.queue|
            && (forall i | 0 <= i < |r.batch| :: r.batch[i] == s.queue[|s.queue| - 1 - i])
            && (|r.batch| > 1 ==> |r.batch| <= nBatchSize && |r.batch| * n <= |s.queue|)
            && (|r.batch| < nBatchSize ==> (|r.batch| + 1) * n > |s.queue|)
  {
    BatchSizeFits(s, nBatchSize);
    ShareBounds(|s.queue|, s.nTotal + s.nIdle + 1, BatchSize(s, nBatchSize), nBatchSize);
  }

  lemma ShareBounds(size: nat, n: nat, b: nat, limit: nat)
    requires n >= 1 && b == Basics.Max(1, Basics.Min(limit, size / n))
    ensures b > 1 ==> b <= limit && b * n <= size
    ensures b < limit ==> (b + 1) * n > size
  {
    var share := size / n;
    assert size == share * n + size % n;
    assert (share + 1) * n == share * n + n;
    if b > 1 {
      Modular.MulAtMost(b, share, n);
    }
    if b < limit {
      Modular.MulAtMost(share + 1, b + 1, n);
    }
  }
}
