/** All interleavings of one master and any number of workers on a check queue. One step is
    one critical section, or the evaluation of one check outside of it. */
module CheckQueueProtocol {
  import Basics
  import opened CheckQueue

  datatype Thread<T> =
    | Outside                                          // not in `Loop`
    | Entering                                         // about to lock for the first time
    | Waiting(notified: bool)                          // inside `cond.wait`
    | Running(batch: seq<T>, evaluated: nat, fOk: bool) // with a batch, outside the critical section

  /** Thread 0 is the master. `added` and `done` are the checks added, and completed, since
      the master's last return. */
  datatype System<T(==)> = System(
    s: Shared<T>, threads: seq<Thread<T>>, nBatchSize: nat, added: multiset<T>, done: multiset<T>)

  datatype Action<T> =
    | StartWorker(t: nat)
    | StartWait                                  // the master calls `Wait`
    | MasterAdd(checks: seq<T>, woken: set<nat>) // the master calls `Add`
    | Enter(t: nat)                              // first time in the critical section
    | Evaluate(t: nat)                           // one check of the batch
    | Finish(t: nat)                             // back in the critical section after a batch
    | Wake(t: nat)                               // back from `cond.wait`, notified or not

  function Init<T>(nThreads: nat, nBatchSize: nat): System<T>
    requires nThreads >= 1
  {
    System(Shared([], 0, 0, true, 0), seq(nThreads, i => Outside), nBatchSize, multiset{}, multiset{})
  }

  predicate CountersOk<T>(s: Shared<T>) { s.nTotal >= 0 && s.nIdle >= 0 }

  /** The workers a notification may reach: none, one waiting worker if there is one, or all. */
  predicate WokenBy<T>(threads: seq<Thread<T>>, notify: Notify, woken: set<nat>) {
    var asleep := set t: nat | 1 <= t < |threads| && threads[t] == Waiting(false);
    match notify
    case None => woken == {}
    case One => woken <= asleep && |woken| == (if asleep == {} then 0 else 1)
    case All => woken == asleep
  }

  function Notified<T>(threads: seq<Thread<T>>, woken: set<nat>): (r: seq<Thread<T>>)
    ensures |r| == |threads|
    ensures forall i | 0 <= i < |threads| :: r[i] == if i in woken then Waiting(true) else threads[i]
  {
    seq(|threads|, i requires 0 <= i < |threads| => if i in woken then Waiting(true) else threads[i])
  }

  predicate Enabled<T(==)>(y: System<T>, a: Action<T>) {
    && |y.threads| >= 1 && CountersOk(y.s)
    && match a {
         case StartWorker(t) => 1 <= t < |y.threads| && y.threads[t].Outside?
         case StartWait => y.threads[0].Outside?
         case MasterAdd(checks, woken) => y.threads[0].Outside? && WokenBy(y.threads, NotifyFor(checks), woken)
         case Enter(t) => t < |y.threads| && y.threads[t].Entering?
         case Evaluate(t) => t < |y.threads| && y.threads[t].Running? && y.threads[t].evaluated < |y.threads[t].batch|
         case Finish(t) => t < |y.threads| && y.threads[t].Running? && y.threads[t].evaluated == |y.threads[t].batch| > 0
         case Wake(t) => t < |y.threads| && y.threads[t].Waiting? && y.s.nIdle >= 1
       }
  }

  /** One check evaluated; once a check has failed, the rest of the batch is skipped. */
  function Evaluated<T>(th: Thread<T>, verdict: T -> bool): Thread<T>
    requires th.Running? && th.evaluated < |th.batch|
  {
    var fOk := if th.fOk then verdict(th.batch[th.evaluated]) else th.fOk;
    Running(th.batch, th.evaluated + 1, fOk)
  }

  /** Thread `t` done with its batch; completing the last check, a worker notifies the master. */
  function Completed<T>(y: System<T>, t: nat): System<T>
    requires Enabled(y, Finish(t))
  {
    var th := y.threads[t];
    var notifyMaster := y.s.nTodo == |th.batch| && t != 0;
    var threads := if notifyMaster && y.threads[0].Waiting? then y.threads[0 := Waiting(true)] else y.threads;
    y.(threads := threads, done := y.done + multiset(th.batch))
  }

  /** Thread `t` goes on from the critical section it is in, with shared state `s`. */
  function Proceed<T>(y: System<T>, t: nat, s: Shared<T>): System<T>
    requires t < |y.threads| && CountersOk(s)
  {
    var (s', r) := Decide(s, t == 0, y.nBatchSize);
    match r
    case Returns(_) => y.(s := s', threads := y.threads[t := Outside], added := multiset{}, done := multiset{})
    case Waits => y.(s := s', threads := y.threads[t := Waiting(false)])
    case Takes(batch, fOk) => y.(s := s', threads := y.threads[t := Running(batch, 0, fOk)])
  }

  function Next<T>(y: System<T>, a: Action<T>, verdict: T -> bool): System<T>
    requires Enabled(y, a)
  {
    match a
    case StartWorker(t) => y.(threads := y.threads[t := Entering])
    case StartWait => y.(threads := y.threads[0 := Entering])
    case MasterAdd(checks, woken) =>
      y.(s := Added(y.s, checks), threads := Notified(y.threads, woken), added := y.added + multiset(checks))
    case Enter(t) => Proceed(y, t, CleanUp(y.s, 0, true))
    case Evaluate(t) =>
      y.(threads := y.threads[t := Evaluated(y.threads[t], verdict)])
    case Finish(t) =>
      var th := y.threads[t];
      Proceed(Completed(y, t), t, CleanUp(y.s, |th.batch|, th.fOk))
    case Wake(t) => Proceed(y, t, y.s.(nIdle := y.s.nIdle - 1))
  }

  /** How the thread of a locked step leaves the critical section. */
  function Result<T>(y: System<T>, a: Action<T>): Outcome<T>
    requires Enabled(y, a) && (a.Enter? || a.Finish? || a.Wake?)
  {
    var s := match a
      case Enter(t) => CleanUp(y.s, 0, true)
      case Finish(t) => CleanUp(y.s, |y.threads[t].batch|, y.threads[t].fOk)
      case Wake(t) => y.s.(nIdle := y.s.nIdle - 1);
    Decide(s, a.t == 0, y.nBatchSize).1
  }

  predicate Returning<T(==)>(y: System<T>, a: Action<T>) {
    Enabled(y, a) && (a.Enter? || a.Finish? || a.Wake?) && Result(y, a).Returns?
  }

  // ----- Sums over the threads

  function Batch<T>(th: Thread<T>): multiset<T> {
    if th.Running? then multiset(th.batch) else multiset{}
  }

  function Held<T>(threads: seq<Thread<T>>): multiset<T> {
    if threads == [] then multiset{}
    else Held(threads[..|threads| - 1]) + Batch(threads[|threads| - 1])
  }

  function Sum<T>(threads: seq<Thread<T>>, weight: Thread<T> -> int): int {
    if threads == [] then 0
    else Sum(threads[..|threads| - 1], weight) + weight(threads[|threads| - 1])
  }

  function BatchLen<T>(th: Thread<T>): int { if th.Running? then |th.batch| else 0 }
  function IsWaiting<T>(th: Thread<T>): int { if th.Waiting? then 1 else 0 }
  function IsRunning<T>(th: Thread<T>): int { if th.Running? then 1 else 0 }

  lemma SumExchange<T>(a: multiset<T>, a': multiset<T>, h: multiset<T>, b: multiset<T>, c: multiset<T>)
    requires a + b == a' + c
    ensures (a + h) + b == (a' + h) + c
  {
    assert (a + h) + b == (a + b) + h;
    assert (a' + h) + c == (a' + c) + h;
  }

  lemma {:induction false} HeldUpdate<T>(threads: seq<Thread<T>>, t: nat, th: Thread<T>)
    requires t < |threads|
    ensures Held(threads[t := th]) + Batch(threads[t]) == Held(threads) + Batch(th)
    decreases |threads|
  {
    hide Batch;
    var last := |threads| - 1;
    if t < last {
      assert threads[t := th][..last] == threads[..last][t := th];
      HeldUpdate(threads[..last], t, th);
      SumExchange(Held(threads[..last][t := th]), Held(threads[..last]), Batch(threads[last]), Batch(threads[t]), Batch(th));
    } else {
      assert threads[t := th][..last] == threads[..last];
    }
  }

  lemma {:induction false} SumUpdate<T>(threads: seq<Thread<T>>, t: nat, th: Thread<T>, weight: Thread<T> -> int)
    requires t < |threads|
    ensures Sum(threads[t := th], weight) == Sum(threads, weight) - weight(threads[t]) + weight(th)
    decreases |threads|
  {
    var last := |threads| - 1;
    if t < last {
      assert threads[t := th][..last] == threads[..last][t := th];
      SumUpdate(threads[..last], t, th, weight);
    } else {
      assert threads[t := th][..last] == threads[..last];
    }
  }

  /** Threads that weigh the same one by one weigh the same together. */
  lemma {:induction false} SumSame<T>(threads: seq<Thread<T>>, threads': seq<Thread<T>>, weight: Thread<T> -> int)
    requires |threads| == |threads'|
    requires forall i | 0 <= i < |threads| :: weight(threads[i]) == weight(threads'[i])
    ensures Sum(threads, weight) == Sum(threads', weight)
    decreases |threads|
  {
    if threads != [] {
      SumSame(threads[..|threads| - 1], threads'[..|threads| - 1], weight);
    }
  }

  lemma {:induction false} HeldSame<T>(threads: seq<Thread<T>>, threads': seq<Thread<T>>)
    requires |threads| == |threads'|
    requires forall i | 0 <= i < |threads| :: Batch(threads[i]) == Batch(threads'[i])
    ensures Held(threads) == Held(threads')
    decreases |threads|
  {
    if threads != [] {
      HeldSame(threads[..|threads| - 1], threads'[..|threads| - 1]);
    }
  }

  // ----- The invariant

  predicate HasFailure<T(==)>(added: multiset<T>, verdict: T -> bool) {
    exists c | c in added :: !verdict(c)
  }

  predicate AllPass<T(==)>(checks: multiset<T>, verdict: T -> bool) {
    forall c | c in checks :: verdict(c)
  }

  predicate ThreadOk<T(==)>(th: Thread<T>, added: multiset<T>, verdict: T -> bool) {
    th.Running? ==>
      && th.batch != [] && th.evaluated <= |th.batch|
      && (if th.fOk then forall i | 0 <= i < th.evaluated :: verdict(th.batch[i]) else HasFailure(added, verdict))
  }

  /** Every check added is in the queue, held by one thread, or done; the counters agree
      with the threads; and a failure is recorded only if there is one. */
  ghost predicate Inv<T>(y: System<T>, verdict: T -> bool) {
    && |y.threads| >= 1
    && y.added == multiset(y.s.queue) + Held(y.threads) + y.done
    && y.s.nTodo == |y.s.queue| + Sum(y.threads, BatchLen)
    && y.s.nIdle == Sum(y.threads, IsWaiting)
    && y.s.nTotal - y.s.nIdle == Sum(y.threads, IsRunning)
    && CountersOk(y.s)
    && (if y.s.fAllOk then AllPass(y.done, verdict) else HasFailure(y.added, verdict))
    && (forall t | 0 <= t < |y.threads| :: ThreadOk(y.threads[t], y.added, verdict))
    && (y.threads[0] == Waiting(false) ==> y.s.queue == [] && y.s.nTodo > 0)
    && (y.threads[0].Waiting? ==> y.s.queue == [])
  }

  // ----- Every step keeps the invariant

  /** The part of the invariant that Decide relies on, for a thread `t` inside the critical
      section that holds no batch and is not counted as waiting, with shared state `s`. */
  ghost predicate Inside<T>(y: System<T>, t: nat, s: Shared<T>, verdict: T -> bool) {
    && t < |y.threads|
    && y.added == multiset(s.queue) + Held(y.threads) - Batch(y.threads[t]) + y.done
    && Batch(y.threads[t]) <= Held(y.threads)
    && s.nTodo == |s.queue| + Sum(y.threads, BatchLen) - BatchLen(y.threads[t])
    && s.nIdle == Sum(y.threads, IsWaiting) - IsWaiting(y.threads[t])
    && s.nTotal - s.nIdle == Sum(y.threads, IsRunning) - IsRunning(y.threads[t]) + 1
    && CountersOk(s)
    && (if s.fAllOk then AllPass(y.done, verdict) else HasFailure(y.added, verdict))
    && (forall i | 0 <= i < |y.threads| && i != t :: ThreadOk(y.threads[i], y.added, verdict))
    && (t != 0 && y.threads[0] == Waiting(false) ==> s.queue == [] && s.nTodo > 0)
    && (t != 0 && y.threads[0].Waiting? ==> s.queue == [])
  }

  lemma {:induction false} SumNonNegative<T>(threads: seq<Thread<T>>)
    ensures Sum(threads, BatchLen) >= 0 && Sum(threads, IsWaiting) >= 0 && Sum(threads, IsRunning) >= 0
    ensures forall i | 0 <= i < |threads| ::
              BatchLen(threads[i]) <= Sum(threads, BatchLen) && IsWaiting(threads[i]) <= Sum(threads, IsWaiting)
              && IsRunning(threads[i]) <= Sum(threads, IsRunning)
    decreases |threads|
  {
    if threads != [] {
      SumNonNegative(threads[..|threads| - 1]);
    }
  }

  lemma {:induction false} HeldNone<T>(threads: seq<Thread<T>>)
    requires Sum(threads, BatchLen) == 0
    ensures Held(threads) == multiset{}
    decreases |threads|
  {
    if threads != [] {
      SumNonNegative(threads[..|threads| - 1]);
      HeldNone(threads[..|threads| - 1]);
    }
  }

  lemma {:induction false} HeldContains<T>(threads: seq<Thread<T>>, t: nat)
    requires t < |threads|
    ensures Batch(threads[t]) <= Held(threads)
    decreases |threads|
  {
    if t < |threads| - 1 {
      HeldContains(threads[..|threads| - 1], t);
    }
  }

  lemma ProceedKeeps<T>(y: System<T>, t: nat, s: Shared<T>, verdict: T -> bool)
    requires Inside(y, t, s, verdict)
    ensures Inv(Proceed(y, t, s), verdict)
  {
    var (s', r) := Decide(s, t == 0, y.nBatchSize);
    match r
    case Returns(ok) => ReturnKeeps(y, t, s, verdict);
    case Waits => WaitKeeps(y, t, s, verdict);
    case Takes(batch, fOk) => TakeKeeps(y, t, s, verdict);
  }

  /** How the sums change when thread `t` becomes `th`. */
  lemma Replace<T>(threads: seq<Thread<T>>, t: nat, th: Thread<T>)
    requires t < |threads|
    ensures Held(threads[t := th]) == Held(threads) - Batch(threads[t]) + Batch(th)
    ensures Sum(threads[t := th], BatchLen) == Sum(threads, BatchLen) - BatchLen(threads[t]) + BatchLen(th)
    ensures Sum(threads[t := th], IsWaiting) == Sum(threads, IsWaiting) - IsWaiting(threads[t]) + IsWaiting(th)
    ensures Sum(threads[t := th], IsRunning) == Sum(threads, IsRunning) - IsRunning(threads[t]) + IsRunning(th)
  {
    hide *;
    HeldContains(threads, t);
    HeldUpdate(threads, t, th);
    Cancel(Held(threads[t := th]), Batch(threads[t]), Held(threads), Batch(th));
    SumUpdate(threads, t, th, BatchLen);
    SumUpdate(threads, t, th, IsWaiting);
    SumUpdate(threads, t, th, IsRunning);
  }

  lemma Cancel<T>(a: multiset<T>, b: multiset<T>, c: multiset<T>, d: multiset<T>)
    requires a + b == c + d && b <= c
    ensures a == c - b + d
  {
    assert a == (a + b) - b;
  }

  lemma WaitKeeps<T>(y: System<T>, t: nat, s: Shared<T>, verdict: T -> bool)
    requires Inside(y, t, s, verdict)
    requires Decide(s, t == 0, y.nBatchSize).1.Waits?
    ensures Inv(Proceed(y, t, s), verdict)
  {
    hide Held, Sum, AllPass, HasFailure;
    var threads := y.threads[t := Waiting(false)];
    Replace(y.threads, t, Waiting(false));
    SumNonNegative(threads);
    HeldRest(y, t, s, Waiting(false));
  }

  lemma HeldRest<T>(y: System<T>, t: nat, s: Shared<T>, th: Thread<T>)
    requires t < |y.threads| && Batch(th) == multiset{}
    requires y.added == multiset(s.queue) + Held(y.threads) - Batch(y.threads[t]) + y.done
    ensures y.added == multiset(s.queue) + Held(y.threads[t := th]) + y.done
  {
    hide *;
    HeldContains(y.threads, t);
    Replace(y.threads, t, th);
    var q, h, b := multiset(s.queue), Held(y.threads), Batch(y.threads[t]);
    assert q + h - b == q + (h - b + multiset{});
  }

  lemma ReturnKeeps<T>(y: System<T>, t: nat, s: Shared<T>, verdict: T -> bool)
    requires Inside(y, t, s, verdict)
    requires Decide(s, t == 0, y.nBatchSize).1.Returns?
    ensures Inv(Proceed(y, t, s), verdict)
    ensures y.added == y.done
  {
    hide Held, Sum;
    var threads := y.threads[t := Outside];
    Replace(y.threads, t, Outside);
    SumNonNegative(threads);
    HeldNone(threads);
    HeldRest(y, t, s, Outside);
    forall i | 0 <= i < |threads|
      ensures !threads[i].Running?
    {
      assert BatchLen(threads[i]) <= 0;
    }
  }

  lemma TakeKeeps<T>(y: System<T>, t: nat, s: Shared<T>, verdict: T -> bool)
    requires Inside(y, t, s, verdict)
    requires Decide(s, t == 0, y.nBatchSize).1.Takes?
    ensures Inv(Proceed(y, t, s), verdict)
  {
    BatchSizeFits(s, y.nBatchSize);
    var rest := |s.queue| - BatchSize(s, y.nBatchSize);
    var th := Running(Basics.Reverse(s.queue[rest..]), 0, s.fAllOk);
    assert y.added == multiset(s.queue) + Held(y.threads) - Batch(y.threads[t]) + y.done;
    hide Held, Sum, AllPass, HasFailure, BatchSize, Basics.Reverse, Inside, Inv;
    TakeSums(y, t, s, rest, th);
    TakeConserves(y, t, s, rest, th);
    assert Proceed(y, t, s) == y.(s := s.(queue := s.queue[..rest]), threads := y.threads[t := th]);
    hide Decide, Proceed;
    TakenInv(y, t, s, rest, th, verdict);
  }

  lemma TakenInv<T>(y: System<T>, t: nat, s: Shared<T>, rest: nat, th: Thread<T>, verdict: T -> bool)
    requires Inside(y, t, s, verdict) && t < |y.threads| && rest < |s.queue| && s.queue != []
    requires th == Running(Basics.Reverse(s.queue[rest..]), 0, s.fAllOk)
    requires var threads := y.threads[t := th];
             && Sum(threads, BatchLen) == Sum(y.threads, BatchLen) - BatchLen(y.threads[t]) + |s.queue| - rest
             && Sum(threads, IsWaiting) == Sum(y.threads, IsWaiting) - IsWaiting(y.threads[t])
             && Sum(threads, IsRunning) == Sum(y.threads, IsRunning) - IsRunning(y.threads[t]) + 1
    requires y.added == multiset(s.queue[..rest]) + Held(y.threads[t := th]) + y.done
    ensures Inv(y.(s := s.(queue := s.queue[..rest]), threads := y.threads[t := th]), verdict)
  {
    hide Held, Sum, AllPass, HasFailure, Basics.Reverse, Batch, BatchLen, IsWaiting, IsRunning;
  }

  lemma TakeSums<T>(y: System<T>, t: nat, s: Shared<T>, rest: nat, th: Thread<T>)
    requires t < |y.threads| && rest <= |s.queue| && th == Running(Basics.Reverse(s.queue[rest..]), 0, s.fAllOk)
    ensures var threads := y.threads[t := th];
            && Sum(threads, BatchLen) == Sum(y.threads, BatchLen) - BatchLen(y.threads[t]) + |s.queue| - rest
            && Sum(threads, IsWaiting) == Sum(y.threads, IsWaiting) - IsWaiting(y.threads[t])
            && Sum(threads, IsRunning) == Sum(y.threads, IsRunning) - IsRunning(y.threads[t]) + 1
  {
    hide Held, Sum;
    Replace(y.threads, t, th);
  }

  lemma TakeConserves<T>(y: System<T>, t: nat, s: Shared<T>, rest: nat, th: Thread<T>)
    requires t < |y.threads| && rest <= |s.queue| && th == Running(Basics.Reverse(s.queue[rest..]), 0, s.fAllOk)
    requires y.added == multiset(s.queue) + Held(y.threads) - Batch(y.threads[t]) + y.done
    ensures y.added == multiset(s.queue[..rest]) + Held(y.threads[t := th]) + y.done
  {
    hide Held, Sum, Basics.Reverse;
    Replace(y.threads, t, th);
    ReversedMultiset(s.queue[rest..]);
    assert s.queue == s.queue[..rest] + s.queue[rest..];
    HeldContains(y.threads, t);
    TakeRest(multiset(s.queue[..rest]), multiset(s.queue[rest..]), Held(y.threads), Batch(y.threads[t]));
  }

  lemma TakeRest<T>(q: multiset<T>, taken: multiset<T>, h: multiset<T>, b: multiset<T>)
    requires b <= h
    ensures (q + taken) + h - b == q + (h - b + taken)
  {
  }

  lemma {:induction false} ReversedMultiset<T>(s: seq<T>)
    ensures multiset(Basics.Reverse(s)) == multiset(s)
    decreases |s|
  {
    if s != [] {
      var init, last := s[..|s| - 1], s[|s| - 1];
      ReversedMultiset(init);
      assert s == init + [last];
      assert Basics.Reverse(s) == [last] + Basics.Reverse(init);
    }
  }

  lemma InvInit<T>(nThreads: nat, nBatchSize: nat, verdict: T -> bool)
    requires nThreads >= 1
    ensures Inv(Init(nThreads, nBatchSize), verdict)
  {
    NoneHold(Init<T>(nThreads, nBatchSize).threads);
  }

  lemma {:induction false} NoneHold<T>(threads: seq<Thread<T>>)
    requires forall i | 0 <= i < |threads| :: threads[i].Outside?
    ensures Held(threads) == multiset{} && Sum(threads, BatchLen) == 0
    ensures Sum(threads, IsWaiting) == 0 && Sum(threads, IsRunning) == 0
    decreases |threads|
  {
    if threads != [] {
      NoneHold(threads[..|threads| - 1]);
    }
  }

  lemma StartKeeps<T>(y: System<T>, t: nat, verdict: T -> bool)
    requires Inv(y, verdict) && t < |y.threads| && y.threads[t].Outside?
    ensures Inv(y.(threads := y.threads[t := Entering]), verdict)
  {
    hide Held, Sum, AllPass, HasFailure;
    Replace(y.threads, t, Entering);
    HeldContains(y.threads, t);
    assert Held(y.threads) - Batch(y.threads[t]) + Batch(Entering) == Held(y.threads);
  }

  lemma AddKeeps<T>(y: System<T>, checks: seq<T>, woken: set<nat>, verdict: T -> bool)
    requires Inv(y, verdict) && Enabled(y, MasterAdd(checks, woken))
    ensures Inv(Next(y, MasterAdd(checks, woken), verdict), verdict)
  {
    hide Held, Sum, HasFailure, AllPass;
    NotifySums(y.threads, NotifyFor(checks), woken);
    AddConserves(y.added, y.s.queue, checks, Held(y.threads), y.done);
    hide WokenBy, Notified;
    FailureStays(y.added, multiset(checks), verdict);
  }

  lemma NotifySums<T>(threads: seq<Thread<T>>, notify: Notify, woken: set<nat>)
    requires |threads| >= 1 && WokenBy(threads, notify, woken)
    ensures var threads' := Notified(threads, woken);
            && Held(threads') == Held(threads) && Sum(threads', BatchLen) == Sum(threads, BatchLen)
            && Sum(threads', IsWaiting) == Sum(threads, IsWaiting) && Sum(threads', IsRunning) == Sum(threads, IsRunning)
            && threads'[0] == threads[0]
            && forall i | 0 <= i < |threads| :: threads'[i] == threads[i] || !threads'[i].Running?
  {
    hide Held, Sum;
    var threads' := Notified(threads, woken);
    forall i | 0 <= i < |threads|
      ensures threads'[i] == threads[i] || (i >= 1 && threads'[i] == Waiting(true) && threads[i] == Waiting(false))
    {
    }
    hide WokenBy;
    HeldSame(threads, threads');
    SumSame(threads, threads', BatchLen);
    SumSame(threads, threads', IsWaiting);
    SumSame(threads, threads', IsRunning);
  }

  lemma AddConserves<T>(added: multiset<T>, queue: seq<T>, checks: seq<T>, held: multiset<T>, done: multiset<T>)
    requires added == multiset(queue) + held + done
    ensures added + multiset(checks) == multiset(queue + checks) + held + done
  {
  }

  lemma FailureStays<T>(added: multiset<T>, more: multiset<T>, verdict: T -> bool)
    ensures HasFailure(added, verdict) ==> HasFailure(added + more, verdict)
  {
    if HasFailure(added, verdict) {
      var c :| c in added && !verdict(c);
      assert c in added + more;
    }
  }

  lemma EvaluateKeeps<T>(y: System<T>, t: nat, verdict: T -> bool)
    requires Inv(y, verdict) && Enabled(y, Evaluate(t))
    ensures Inv(Next(y, Evaluate(t), verdict), verdict)
  {
    hide Held, Sum, AllPass, HasFailure, ThreadOk;
    var th := y.threads[t];
    var th' := Evaluated(th, verdict);
    BatchAdded(y, t, verdict);
    EvaluatedOk(th, y.added, verdict);
    Replace(y.threads, t, th');
    HeldContains(y.threads, t);
    assert Held(y.threads) - Batch(th) + Batch(th') == Held(y.threads);
  }

  lemma EvaluatedOk<T>(th: Thread<T>, added: multiset<T>, verdict: T -> bool)
    requires th.Running? && th.evaluated < |th.batch| && ThreadOk(th, added, verdict) && multiset(th.batch) <= added
    ensures ThreadOk(Evaluated(th, verdict), added, verdict)
  {
    var c := th.batch[th.evaluated];
    assert c in multiset(th.batch);
    assert c in added;
  }

  lemma BatchAdded<T>(y: System<T>, t: nat, verdict: T -> bool)
    requires Inv(y, verdict) && t < |y.threads|
    ensures Batch(y.threads[t]) <= y.added
  {
    hide Held, Sum, AllPass, HasFailure;
    HeldContains(y.threads, t);
  }

  lemma EnterKeeps<T>(y: System<T>, t: nat, verdict: T -> bool)
    requires Inv(y, verdict) && Enabled(y, Enter(t))
    ensures Inside(y, t, CleanUp(y.s, 0, true), verdict)
  {
    hide Held, Sum, AllPass, HasFailure;
    HeldContains(y.threads, t);
    assert Held(y.threads) - Batch(y.threads[t]) == Held(y.threads);
  }

  lemma WakeKeeps<T>(y: System<T>, t: nat, verdict: T -> bool)
    requires Inv(y, verdict) && Enabled(y, Wake(t))
    ensures Inside(y, t, y.s.(nIdle := y.s.nIdle - 1), verdict)
  {
    hide Held, Sum, AllPass, HasFailure;
    HeldContains(y.threads, t);
    assert Held(y.threads) - Batch(y.threads[t]) == Held(y.threads);
  }

  lemma FinishKeeps<T>(y: System<T>, t: nat, verdict: T -> bool)
    requires Inv(y, verdict) && Enabled(y, Finish(t))
    ensures var th := y.threads[t];
            Inside(Completed(y, t), t, CleanUp(y.s, |th.batch|, th.fOk), verdict)
  {
    hide Inv, Inside, Completed, CleanUp, Held, Sum, Batch, ThreadOk, AllPass, HasFailure, WokenBy;
    FinishConserves(y, t, verdict);
    FinishCounts(y, t, verdict);
    FinishThreads(y, t, verdict);
    InsideTogether(Completed(y, t), t, CleanUp(y.s, |y.threads[t].batch|, y.threads[t].fOk), verdict);
  }

  lemma InsideTogether<T>(y: System<T>, t: nat, s: Shared<T>, verdict: T -> bool)
    requires t < |y.threads| && CountersOk(s)
    requires y.added == multiset(s.queue) + Held(y.threads) - Batch(y.threads[t]) + y.done
    requires Batch(y.threads[t]) <= Held(y.threads)
    requires s.nTodo == |s.queue| + Sum(y.threads, BatchLen) - BatchLen(y.threads[t])
    requires s.nIdle == Sum(y.threads, IsWaiting) - IsWaiting(y.threads[t])
    requires s.nTotal - s.nIdle == Sum(y.threads, IsRunning) - IsRunning(y.threads[t]) + 1
    requires if s.fAllOk then AllPass(y.done, verdict) else HasFailure(y.added, verdict)
    requires forall i | 0 <= i < |y.threads| :: ThreadOk(y.threads[i], y.added, verdict)
    requires t != 0 && y.threads[0] == Waiting(false) ==> s.queue == [] && s.nTodo > 0
    requires t != 0 && y.threads[0].Waiting? ==> s.queue == []
    ensures Inside(y, t, s, verdict)
  {
    hide Held, Sum, Batch, BatchLen, IsWaiting, IsRunning, AllPass, HasFailure, ThreadOk;
  }

  /** The counters, and the threads, after the clean-up of thread `t`. */
  lemma FinishCounts<T>(y: System<T>, t: nat, verdict: T -> bool)
    requires Inv(y, verdict) && Enabled(y, Finish(t))
    ensures var y', s := Completed(y, t), CleanUp(y.s, |y.threads[t].batch|, y.threads[t].fOk);
            && t < |y'.threads| && CountersOk(s) && s.queue == y.s.queue && s.nTodo == y.s.nTodo - |y.threads[t].batch|
            && s.nTodo == |s.queue| + Sum(y'.threads, BatchLen) - BatchLen(y'.threads[t])
            && s.nIdle == Sum(y'.threads, IsWaiting) - IsWaiting(y'.threads[t])
            && s.nTotal - s.nIdle == Sum(y'.threads, IsRunning) - IsRunning(y'.threads[t]) + 1
            && (t != 0 && y.threads[0].Waiting? ==> s.queue == [])
  {
    hide Held, Sum, HasFailure, AllPass, ThreadOk;
    CompletedSums(y, t);
    SumNonNegative(y.threads);
  }

  lemma FinishThreads<T>(y: System<T>, t: nat, verdict: T -> bool)
    requires Inv(y, verdict) && Enabled(y, Finish(t))
    ensures var y', s := Completed(y, t), CleanUp(y.s, |y.threads[t].batch|, y.threads[t].fOk);
            && (if s.fAllOk then AllPass(y'.done, verdict) else HasFailure(y'.added, verdict))
            && forall i | 0 <= i < |y'.threads| :: ThreadOk(y'.threads[i], y'.added, verdict)
  {
    hide Held, Sum, HasFailure, AllPass;
    CompletedOk(y, t, verdict);
    CompletedSums(y, t);
  }

  lemma FinishConserves<T>(y: System<T>, t: nat, verdict: T -> bool)
    requires Inv(y, verdict) && Enabled(y, Finish(t))
    ensures var y' := Completed(y, t);
            && y'.added == y.added && y'.s == y.s && y'.nBatchSize == y.nBatchSize
            && y'.done == y.done + multiset(y.threads[t].batch)
            && y.added == multiset(y.s.queue) + Held(y'.threads) - Batch(y'.threads[t]) + y'.done
            && Batch(y'.threads[t]) <= Held(y'.threads)
            && (t != 0 && y'.threads[0] == Waiting(false) ==> y.s.nTodo > |y.threads[t].batch|)
            && (y'.threads[0].Waiting? ==> y.threads[0].Waiting?)
  {
    CompletedSums(y, t);
    hide Held, HasFailure, AllPass;
    SumNonNegative(y.threads);
    hide Sum;
    HeldContains(y.threads, t);
    MoveToDone(multiset(y.s.queue), Held(y.threads), multiset(y.threads[t].batch), y.done);
  }

  lemma CompletedSums<T>(y: System<T>, t: nat)
    requires Enabled(y, Finish(t))
    ensures var threads := Completed(y, t).threads;
            && Held(threads) == Held(y.threads) && Sum(threads, BatchLen) == Sum(y.threads, BatchLen)
            && Sum(threads, IsWaiting) == Sum(y.threads, IsWaiting) && Sum(threads, IsRunning) == Sum(y.threads, IsRunning)
            && |threads| == |y.threads| && threads[t] == y.threads[t]
            && forall i | 0 <= i < |threads| :: threads[i] == y.threads[i] || !threads[i].Running?
  {
    hide Held, Sum;
    Replace(y.threads, 0, Waiting(true));
    HeldContains(y.threads, 0);
  }

  lemma MoveToDone<T>(q: multiset<T>, h: multiset<T>, b: multiset<T>, d: multiset<T>)
    requires b <= h
    ensures q + h + d == q + h - b + (d + b)
  {
  }

  /** A batch evaluated to the end either passed entirely or comes with a failure. */
  lemma CompletedOk<T>(y: System<T>, t: nat, verdict: T -> bool)
    requires Inv(y, verdict) && Enabled(y, Finish(t))
    ensures var th := y.threads[t];
            if y.s.fAllOk && th.fOk then AllPass(y.done + multiset(th.batch), verdict) else HasFailure(y.added, verdict)
  {
    hide Held, Sum, HasFailure;
    var th := y.threads[t];
    assert ThreadOk(th, y.added, verdict);
    if y.s.fAllOk && th.fOk {
      forall c | c in multiset(th.batch)
        ensures verdict(c)
      {
        assert c in th.batch;
      }
    }
  }

  /** Every step keeps the invariant. */
  lemma InvStep<T>(y: System<T>, a: Action<T>, verdict: T -> bool)
    requires Inv(y, verdict) && Enabled(y, a)
    ensures Inv(Next(y, a, verdict), verdict)
  {
    hide Inv, Inside, Decide, CleanUp, Held, Sum, WokenBy;
    match a
    case StartWorker(t) => StartKeeps(y, t, verdict);
    case StartWait => StartKeeps(y, 0, verdict);
    case MasterAdd(checks, woken) => AddKeeps(y, checks, woken, verdict);
    case Evaluate(t) => EvaluateKeeps(y, t, verdict);
    case Enter(t) =>
      EnterKeeps(y, t, verdict);
      ProceedKeeps(y, t, CleanUp(y.s, 0, true), verdict);
    case Finish(t) =>
      FinishKeeps(y, t, verdict);
      ProceedKeeps(Completed(y, t), t, CleanUp(y.s, |y.threads[t].batch|, y.threads[t].fOk), verdict);
    case Wake(t) =>
      WakeKeeps(y, t, verdict);
      ProceedKeeps(y, t, y.s.(nIdle := y.s.nIdle - 1), verdict);
  }

  // ----- What a run guarantees

  /** Only the master returns, and its result says whether every check it added since it
      last returned evaluates to true. All of them are done. */
  lemma WaitIsCorrect<T>(y: System<T>, a: Action<T>, verdict: T -> bool)
    requires Inv(y, verdict) && Returning(y, a)
    ensures a.t == 0
    ensures Result(y, a).ok <==> AllPass(y.added, verdict)
    ensures Next(y, a, verdict).added == multiset{} && Next(y, a, verdict).threads[0].Outside?
  {
    hide Inv, Inside, Held, Sum, WokenBy, AllPass, HasFailure, Proceed, Decide;
    match a
    case Enter(t) =>
      EnterKeeps(y, t, verdict);
      ReturnsRight(y, t, CleanUp(y.s, 0, true), verdict);
    case Finish(t) =>
      FinishKeeps(y, t, verdict);
      ReturnsRight(Completed(y, t), t, CleanUp(y.s, |y.threads[t].batch|, y.threads[t].fOk), verdict);
    case Wake(t) =>
      WakeKeeps(y, t, verdict);
      ReturnsRight(y, t, y.s.(nIdle := y.s.nIdle - 1), verdict);
  }

  lemma ReturnsRight<T>(y: System<T>, t: nat, s: Shared<T>, verdict: T -> bool)
    requires CountersOk(s) && Inside(y, t, s, verdict) && Decide(s, t == 0, y.nBatchSize).1.Returns?
    ensures t == 0 && t < |y.threads|
    ensures Decide(s, t == 0, y.nBatchSize).1.ok <==> AllPass(y.added, verdict)
    ensures Proceed(y, t, s).added == multiset{} && |Proceed(y, t, s).threads| > 0 && Proceed(y, t, s).threads[0].Outside?
  {
    hide Held, Sum, Batch;
    ReturnKeeps(y, t, s, verdict);
  }

  /** With nothing added since the last return, the assertions of a new control hold. */
  lemma IdleBetweenWaits<T>(y: System<T>, verdict: T -> bool)
    requires Inv(y, verdict) && y.added == multiset{}
    ensures y.s.nTotal == y.s.nIdle && y.s.nTodo == 0 && y.s.fAllOk && y.s.queue == []
  {
    hide Held, Sum, WokenBy;
    assert |y.added| == |multiset(y.s.queue)| + |Held(y.threads)| + |y.done|;
    assert |multiset(y.s.queue)| == |y.s.queue|;
    HeldSize(y.threads);
    NoneRunning(y.threads, y.added, verdict);
  }

  lemma {:induction false} HeldSize<T>(threads: seq<Thread<T>>)
    ensures |Held(threads)| == Sum(threads, BatchLen)
    decreases |threads|
  {
    if threads != [] {
      HeldSize(threads[..|threads| - 1]);
    }
  }

  lemma {:induction false} NoneRunning<T>(threads: seq<Thread<T>>, added: multiset<T>, verdict: T -> bool)
    requires Sum(threads, BatchLen) == 0
    requires forall t | 0 <= t < |threads| :: ThreadOk(threads[t], added, verdict)
    ensures Sum(threads, IsRunning) == 0
    decreases |threads|
  {
    if threads != [] {
      SumNonNegative(threads[..|threads| - 1]);
      assert ThreadOk(threads[|threads| - 1], added, verdict);
      NoneRunning(threads[..|threads| - 1], added, verdict);
    }
  }

  lemma {:induction false} SomeRunning<T>(threads: seq<Thread<T>>) returns (t: nat)
    requires Sum(threads, BatchLen) > 0
    ensures t < |threads| && threads[t].Running?
    decreases |threads|
  {
    t := |threads| - 1;
    if !threads[t].Running? {
      t := SomeRunning(threads[..|threads| - 1]);
    }
  }

  /** No wake-up is lost: a master that waits and is not notified has a worker at work. */
  lemma NoLostWakeUp<T>(y: System<T>, verdict: T -> bool) returns (t: nat)
    requires Inv(y, verdict) && y.threads[0] == Waiting(false)
    ensures 1 <= t < |y.threads| && y.threads[t].Running?
  {
    t := SomeRunning(y.threads);
  }

  // ----- Progress

  function Weight<T>(th: Thread<T>): int {
    match th
    case Outside => 0
    case Entering => 1
    case Waiting(notified) => if notified then 1 else 0
    case Running(batch, evaluated, _) => 2 * (|batch| - evaluated) + 2
  }

  function Potential<T>(y: System<T>): int {
    5 * |y.s.queue| + Sum(y.threads, Weight)
  }

  /** A step inside `Loop` other than a spurious wake-up. */
  predicate Productive<T(==)>(y: System<T>, a: Action<T>) {
    Enabled(y, a) && (a.Enter? || a.Evaluate? || a.Finish? || (a.Wake? && y.threads[a.t] == Waiting(true)))
  }

  /** Until the master returns from `Wait`, some productive step is possible. */
  lemma WaitNotStuck<T>(y: System<T>, verdict: T -> bool) returns (a: Action<T>)
    requires Inv(y, verdict) && !y.threads[0].Outside?
    ensures Productive(y, a)
  {
    var t := 0;
    if y.threads[0] == Waiting(false) {
      t := NoLostWakeUp(y, verdict);
    }
    hide Held;
    SumNonNegative(y.threads);
    hide Sum;
    assert ThreadOk(y.threads[t], y.added, verdict);
    match y.threads[t]
    case Entering => a := Enter(t);
    case Waiting(_) => a := Wake(t);
    case Running(batch, evaluated, _) => a := if evaluated < |batch| then Evaluate(t) else Finish(t);
  }

  lemma ProceedProgress<T>(y: System<T>, t: nat, s: Shared<T>)
    requires t < |y.threads| && CountersOk(s) && s.queue == y.s.queue
    ensures Potential(Proceed(y, t, s)) <= Potential(y) - Weight(y.threads[t])
  {
    hide Sum, BatchSize;
    var (s', r) := Decide(s, t == 0, y.nBatchSize);
    match r
    case Returns(_) => SumUpdate(y.threads, t, Outside, Weight);
    case Waits => SumUpdate(y.threads, t, Waiting(false), Weight);
    case Takes(batch, fOk) =>
      BatchSizeFits(s, y.nBatchSize);
      SumUpdate(y.threads, t, Running(batch, 0, fOk), Weight);
  }

  /** Every productive step uses up some of the potential. */
  lemma ProductiveStep<T>(y: System<T>, a: Action<T>, verdict: T -> bool)
    requires Inv(y, verdict) && Productive(y, a)
    ensures Potential(Next(y, a, verdict)) < Potential(y)
  {
    hide Sum, Inv, Inside, Decide, Held, WokenBy;
    match a
    case Enter(t) => ProceedProgress(y, t, CleanUp(y.s, 0, true));
    case Evaluate(t) => SumUpdate(y.threads, t, Evaluated(y.threads[t], verdict), Weight);
    case Wake(t) => ProceedProgress(y, t, y.s.(nIdle := y.s.nIdle - 1));
    case Finish(t) =>
      FinishKeeps(y, t, verdict);
      SumUpdate(y.threads, 0, Waiting(true), Weight);
      InsideCounters(Completed(y, t), t, CleanUp(y.s, |y.threads[t].batch|, y.threads[t].fOk), verdict);
      ProceedProgress(Completed(y, t), t, CleanUp(y.s, |y.threads[t].batch|, y.threads[t].fOk));
  }

  lemma InsideCounters<T>(y: System<T>, t: nat, s: Shared<T>, verdict: T -> bool)
    requires Inside(y, t, s, verdict)
    ensures CountersOk(s)
  {
    hide Held, Sum;
  }

  lemma {:induction false} WeightsNonNegative<T>(threads: seq<Thread<T>>, added: multiset<T>, verdict: T -> bool)
    requires forall t | 0 <= t < |threads| :: ThreadOk(threads[t], added, verdict)
    ensures Sum(threads, Weight) >= 0
    decreases |threads|
  {
    if threads != [] {
      WeightsNonNegative(threads[..|threads| - 1], added, verdict);
      assert ThreadOk(threads[|threads| - 1], added, verdict);
    }
  }

  lemma PotentialNonNegative<T>(y: System<T>, verdict: T -> bool)
    requires Inv(y, verdict)
    ensures Potential(y) >= 0
  {
    WeightsNonNegative(y.threads, y.added, verdict);
  }

  // ----- Runs

  /** `ys` are the states an interleaving `acts` of enabled steps goes through. */
  ghost predicate IsExecution<T>(ys: seq<System<T>>, acts: seq<Action<T>>, verdict: T -> bool) {
    && |ys| == |acts| + 1
    && forall i | 0 <= i < |acts| :: Enabled(ys[i], acts[i]) && ys[i + 1] == Next(ys[i], acts[i], verdict)
  }

  lemma {:induction false} ExecutionInv<T>(ys: seq<System<T>>, acts: seq<Action<T>>, verdict: T -> bool, n: nat)
    requires IsExecution(ys, acts, verdict) && Inv(ys[0], verdict) && n < |ys|
    ensures Inv(ys[n], verdict)
    decreases n
  {
    hide Inv, Enabled, Next;
    if n > 0 {
      ExecutionInv(ys, acts, verdict, n - 1);
      InvStep(ys[n - 1], acts[n - 1], verdict);
    }
  }

  /** The checks handed to `Add` in the first `n` steps, since the last return from `Wait`. */
  ghost function AddedSinceReturn<T>(ys: seq<System<T>>, acts: seq<Action<T>>, n: nat): multiset<T>
    requires n < |ys| == |acts| + 1
  {
    if n == 0 then multiset{}
    else
      var before := AddedSinceReturn(ys, acts, n - 1);
      match acts[n - 1]
      case MasterAdd(checks, _) => before + multiset(checks)
      case _ => if Returning(ys[n - 1], acts[n - 1]) then multiset{} else before
  }

  lemma {:induction false} AddedIsHistory<T>(ys: seq<System<T>>, acts: seq<Action<T>>, verdict: T -> bool, n: nat)
    requires IsExecution(ys, acts, verdict) && ys[0].added == multiset{} && n < |ys|
    ensures ys[n].added == AddedSinceReturn(ys, acts, n)
    decreases n
  {
    if n > 0 {
      hide Enabled, Next, Returning;
      AddedIsHistory(ys, acts, verdict, n - 1);
      NextAdded(ys[n - 1], acts[n - 1], verdict);
    }
  }

  lemma NextAdded<T>(y: System<T>, a: Action<T>, verdict: T -> bool)
    requires Enabled(y, a)
    ensures Next(y, a, verdict).added ==
            match a
            case MasterAdd(checks, _) => y.added + multiset(checks)
            case _ => if Returning(y, a) then multiset{} else y.added
  {
    hide Decide, WokenBy, CleanUp;
  }

  /** In every interleaving, from the start, each return from `Wait` says exactly whether
      all checks added since the previous return evaluate to true. */
  lemma EveryWaitIsCorrect<T>(nThreads: nat, nBatchSize: nat, ys: seq<System<T>>, acts: seq<Action<T>>,
                              verdict: T -> bool, i: nat)
    requires nThreads >= 1 && IsExecution(ys, acts, verdict) && ys[0] == Init(nThreads, nBatchSize)
    requires i < |acts| && Returning(ys[i], acts[i])
    ensures acts[i].t == 0
    ensures Result(ys[i], acts[i]).ok <==> AllPass(AddedSinceReturn(ys, acts, i), verdict)
  {
    InvInit(nThreads, nBatchSize, verdict);
    assert ys[0].added == multiset{};
    hide *;
    ExecutionInv(ys, acts, verdict, i);
    AddedIsHistory(ys, acts, verdict, i);
    WaitIsCorrect(ys[i], acts[i], verdict);
  }

  /** What a step may add to the potential: a thread that enters the loop, and checks that are added,
      with the notifications that go with them. */
  function Gain<T>(y: System<T>, a: Action<T>): nat {
    match a
    case StartWorker(_) => 1
    case StartWait => 1
    case MasterAdd(checks, _) => 5 * |checks| + |y.threads|
    case _ => 0
  }

  lemma {:induction false} SumRaised<T>(threads: seq<Thread<T>>, threads': seq<Thread<T>>)
    requires |threads| == |threads'|
    requires forall i | 0 <= i < |threads| :: Weight(threads'[i]) <= Weight(threads[i]) + 1
    ensures Sum(threads', Weight) <= Sum(threads, Weight) + |threads|
    decreases |threads|
  {
    hide Weight;
    if threads != [] {
      SumRaised(threads[..|threads| - 1], threads'[..|threads| - 1]);
    }
  }

  lemma AddGains<T>(y: System<T>, checks: seq<T>, woken: set<nat>, verdict: T -> bool)
    requires Enabled(y, MasterAdd(checks, woken))
    ensures Potential(Next(y, MasterAdd(checks, woken), verdict)) <= Potential(y) + 5 * |checks| + |y.threads|
  {
    hide Sum;
    SumRaised(y.threads, Notified(y.threads, woken));
  }

  /** No step raises the potential by more than its gain, and a productive one uses up some of it. */
  lemma StepPotential<T>(y: System<T>, a: Action<T>, verdict: T -> bool)
    requires Inv(y, verdict) && Enabled(y, a)
    ensures Potential(Next(y, a, verdict)) + (if Productive(y, a) then 1 else 0) <= Potential(y) + Gain(y, a)
  {
    hide Inv, Sum, Decide, Proceed, WokenBy, Notified;
    if Productive(y, a) {
      ProductiveStep(y, a, verdict);
    } else {
      match a
      case StartWorker(t) => StartGains(y, t);
      case StartWait => StartGains(y, 0);
      case MasterAdd(checks, woken) => AddGains(y, checks, woken, verdict);
      case Wake(t) => IdleWake(y, t, verdict);
    }
  }

  lemma StartGains<T>(y: System<T>, t: nat)
    requires t < |y.threads| && y.threads[t].Outside?
    ensures Potential(y.(threads := y.threads[t := Entering])) == Potential(y) + 1
  {
    hide Sum;
    SumUpdate(y.threads, t, Entering, Weight);
  }

  lemma IdleWake<T>(y: System<T>, t: nat, verdict: T -> bool)
    requires Enabled(y, Wake(t)) && y.threads[t] == Waiting(false)
    ensures Potential(Next(y, Wake(t), verdict)) <= Potential(y)
  {
    hide Sum, Decide, Proceed;
    ProceedProgress(y, t, y.s.(nIdle := y.s.nIdle - 1));
  }

  /** The number of productive steps of a run. */
  ghost function ProductiveSteps<T>(ys: seq<System<T>>, acts: seq<Action<T>>): nat
    requires |ys| == |acts| + 1
    decreases |acts|
  {
    if |acts| == 0 then 0
    else
      var n := |acts| - 1;
      ProductiveSteps(ys[..n + 1], acts[..n]) + if Productive(ys[n], acts[n]) then 1 else 0
  }

  ghost function Gains<T>(ys: seq<System<T>>, acts: seq<Action<T>>): nat
    requires |ys| == |acts| + 1
    decreases |acts|
  {
    if |acts| == 0 then 0
    else
      var n := |acts| - 1;
      Gains(ys[..n + 1], acts[..n]) + Gain(ys[n], acts[n])
  }

  /** In every run, spurious wake-ups included, the productive steps and the potential that is left
      do not exceed the potential at the start and what was gained. */
  lemma {:induction false} WorkBound<T>(ys: seq<System<T>>, acts: seq<Action<T>>, verdict: T -> bool)
    requires IsExecution(ys, acts, verdict) && Inv(ys[0], verdict)
    ensures ProductiveSteps(ys, acts) + Potential(ys[|acts|]) <= Potential(ys[0]) + Gains(ys, acts)
    decreases |acts|
  {
    hide Inv, Enabled, Next, Potential, Productive, Gain;
    if |acts| > 0 {
      var n := |acts| - 1;
      WorkBound(ys[..n + 1], acts[..n], verdict);
      ExecutionInv(ys, acts, verdict, n);
      StepPotential(ys[n], acts[n], verdict);
    }
  }

  /** The threads that enter the loop. */
  ghost function Starts<T>(acts: seq<Action<T>>): nat {
    if |acts| == 0 then 0
    else
      var a := acts[|acts| - 1];
      Starts(acts[..|acts| - 1]) + if a.StartWorker? || a.StartWait? then 1 else 0
  }

  lemma {:induction false} GainsAreStarts<T>(ys: seq<System<T>>, acts: seq<Action<T>>)
    requires |ys| == |acts| + 1 && forall i | 0 <= i < |acts| :: !acts[i].MasterAdd?
    ensures Gains(ys, acts) == Starts(acts)
    decreases |acts|
  {
    if |acts| > 0 {
      GainsAreStarts(ys[..|acts|], acts[..|acts| - 1]);
    }
  }

  /** Productive steps cannot go on forever: while nothing is added there are at most as many as the
      potential of the state they start from, and one for each thread that enters the loop. */
  lemma WaitTerminates<T>(ys: seq<System<T>>, acts: seq<Action<T>>, verdict: T -> bool)
    requires IsExecution(ys, acts, verdict) && Inv(ys[0], verdict)
    requires forall i | 0 <= i < |acts| :: !acts[i].MasterAdd?
    ensures ProductiveSteps(ys, acts) <= Potential(ys[0]) + Starts(acts)
  {
    hide Inv, Enabled, Next, Potential, Productive, ProductiveSteps, Gains;
    WorkBound(ys, acts, verdict);
    GainsAreStarts(ys, acts);
    ExecutionInv(ys, acts, verdict, |acts|);
    PotentialNonNegative(ys[|acts|], verdict);
  }
}
