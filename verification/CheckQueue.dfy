/** The check queue: one master thread adds checks and waits for their joint result, while
    worker threads and the master evaluate them in batches. */
module CheckQueue {
  import Basics
  import Modular

  /** The fields the mutex protects. */
  datatype Shared<T> = Shared(
    queue: seq<T>,   // a stack: checks are taken from its end
    nIdle: int,      // threads inside `cond.wait`
    nTotal: int,     // threads inside `Loop`
    fAllOk: bool,
    nTodo: int)      // checks added and not yet completed

  /** How a thread leaves the critical section. */
  datatype Outcome<T> = Returns(ok: bool) | Waits | Takes(batch: seq<T>, fOk: bool)

  function BatchSize<T>(s: Shared<T>, nBatchSize: nat): int
    requires s.nTotal >= 0 && s.nIdle >= 0
  {
    Basics.Max(1, Basics.Min(nBatchSize, |s.queue| / (s.nTotal + s.nIdle + 1)))
  }

  lemma BatchSizeFits<T>(s: Shared<T>, nBatchSize: nat)
    requires s.nTotal >= 0 && s.nIdle >= 0 && s.queue != []
    ensures 1 <= BatchSize(s, nBatchSize) <= |s.queue|
    ensures nBatchSize >= 1 ==> BatchSize(s, nBatchSize) <= nBatchSize
  {
    var d := s.nTotal + s.nIdle + 1;
    var share := |s.queue| / d;
    assert |s.queue| == share * d + |s.queue| % d;
    Modular.MulAtMost(1, d, share);
    assert d * share == share * d;
  }

  /** The clean-up at the start of the critical section, after a batch of `nNow` checks. */
  function CleanUp<T>(s: Shared<T>, nNow: nat, fOk: bool): Shared<T> {
    if nNow != 0 then s.(fAllOk := s.fAllOk && fOk, nTodo := s.nTodo - nNow)
    else s.(nTotal := s.nTotal + 1)
  }

  /** The rest of the critical section, until the thread returns, waits or takes a batch. */
  function Decide<T>(s: Shared<T>, fMaster: bool, nBatchSize: nat): (Shared<T>, Outcome<T>)
    requires s.nTotal >= 0 && s.nIdle >= 0
  {
    if s.queue == [] then
      if fMaster && s.nTodo == 0 then (s.(nTotal := s.nTotal - 1, fAllOk := true), Returns(s.fAllOk))
      else (s.(nIdle := s.nIdle + 1), Waits)
    else
      BatchSizeFits(s, nBatchSize);
      var rest := |s.queue| - BatchSize(s, nBatchSize);
      (s.(queue := s.queue[..rest]), Takes(Basics.Reverse(s.queue[rest..]), s.fAllOk))
  }

  /** The queue object. Each method is one stretch of code that holds the mutex. */
  class CCheckQueue<T> {
    var queue: seq<T>
    var nIdle: int
    var nTotal: int
    var fAllOk: bool
    var nTodo: int
    const nBatchSize: nat

    constructor (nBatchSizeIn: nat)
      ensures State() == Shared([], 0, 0, true, 0) && nBatchSize == nBatchSizeIn
    {
      queue, nIdle, nTotal, fAllOk, nTodo := [], 0, 0, true, 0;
      nBatchSize := nBatchSizeIn;
    }

    function State(): Shared<T>
      reads this
    {
      Shared(queue, nIdle, nTotal, fAllOk, nTodo)
    }

    /** Locked by a thread that enters `Loop` (`nNow == 0`) or has evaluated a batch. */
    method LockAfterBatch(nNow: nat, fOk: bool, fMaster: bool) returns (r: Outcome<T>, notifyMaster: bool)
      requires nTotal >= 0 && nIdle >= 0
      modifies this
      ensures (State(), r) == Decide(CleanUp(old(State()), nNow, fOk), fMaster, nBatchSize)
      ensures notifyMaster <==> nNow != 0 && old(nTodo) == nNow && !fMaster
    {
      notifyMaster := false;
      if nNow != 0 {
        fAllOk := fAllOk && fOk;
        nTodo := nTodo - nNow;
        notifyMaster := nTodo == 0 && !fMaster;
      } else {
        nTotal := nTotal + 1;
      }
      r := LeaveSection(fMaster);
    }

    /** Locked again by a thread that was waiting. */
    method LockAfterWait(fMaster: bool) returns (r: Outcome<T>)
      requires nTotal >= 0 && nIdle >= 1
      modifies this
      ensures (State(), r) == Decide(old(State()).(nIdle := old(nIdle) - 1), fMaster, nBatchSize)
    {
      nIdle := nIdle - 1;
      r := LeaveSection(fMaster);
    }

    method LeaveSection(fMaster: bool) returns (r: Outcome<T>)
      requires nTotal >= 0 && nIdle >= 0
      modifies this
      ensures (State(), r) == Decide(old(State()), fMaster, nBatchSize)
    {
      if queue == [] {
        if fMaster && nTodo == 0 {
          nTotal := nTotal - 1;
          var fRet := fAllOk;
          if fMaster {
            fAllOk := true;
          }
          return Returns(fRet);
        }
        nIdle := nIdle + 1;
        return Waits;
      }
      BatchSizeFits(State(), nBatchSize);
      var nNow := Basics.Max(1, Basics.Min(nBatchSize, |queue| / (nTotal + nIdle + 1)));
      var vChecks := TakeBatch(nNow);
      return Takes(vChecks, fAllOk);
    }

    /** Takes checks off the end of the queue, one by one. */
    method TakeBatch(nNow: nat) returns (vChecks: seq<T>)
      requires nNow <= |queue|
      modifies `queue
      ensures queue == old(queue)[..|old(queue)| - nNow]
      ensures vChecks == Basics.Reverse(old(queue)[|old(queue)| - nNow..])
    {
      vChecks := [];
      for i := 0 to nNow
        invariant queue == old(queue)[..|old(queue)| - i]
        invariant vChecks == Basics.Reverse(old(queue)[|old(queue)| - i..])
      {
        vChecks := vChecks + [queue[|queue| - 1]];
        queue := queue[..|queue| - 1];
      }
    }

    /** Adds a batch of checks; says how many waiting workers to notify: none, one or all. */
    method Add(vChecks: seq<T>) returns (notify: Notify)
      modifies this
      ensures State() == Added(old(State()), vChecks)
      ensures notify == NotifyFor(vChecks)
      ensures (notify == None <==> |vChecks| == 0) && (notify == One <==> |vChecks| == 1)
    {
      for i := 0 to |vChecks|
        invariant queue == old(queue) + vChecks[..i]
        invariant nTotal == old(nTotal) && nIdle == old(nIdle) && fAllOk == old(fAllOk) && nTodo == old(nTodo)
      {
        queue := queue + [vChecks[i]];
      }
      assert vChecks[..|vChecks|] == vChecks;
      nTodo := nTodo + |vChecks|;
      return if |vChecks| == 1 then One else if |vChecks| > 1 then All else None;
    }
  }

  datatype Notify = None | One | All

  function Added<T>(s: Shared<T>, vChecks: seq<T>): Shared<T> {
    s.(queue := s.queue + vChecks, nTodo := s.nTodo + |vChecks|)
  }

  function NotifyFor<T>(vChecks: seq<T>): Notify {
    match |vChecks| case 0 => None case 1 => One case _ => All
  }
}
