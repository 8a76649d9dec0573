/** Filling a block from the memory pool: transactions that spend others of the pool wait for
    them, the rest are taken by priority or fee within the limits of a block. */
module Miner {
  import opened Basics
  import opened BlockSpec
  import opened PriorityQueue
  import opened StaleOrphans

  /** A transaction that waits for others of the pool. A `dropped` one has left the list because it
      has an input that is nowhere; there may be pointers to it left. */
  datatype Orphan = Orphan(tx: Tx, dependsOn: set<Uint256>, priority: real, feePerKb: real, dropped: bool)

  // ----- What is kept while the block fills; `done` are the hashes in the block, `seen` those
  // taken from the queue

  /** Who waits for a transaction is in its list. */
  ghost predicate Linked(orphans: seq<Orphan>, dependers: map<Uint256, seq<nat>>) {
    && (forall h, k | h in dependers && 0 <= k < |dependers[h]| :: dependers[h][k] < |orphans|)
    && (forall i, h | 0 <= i < |orphans| && h in orphans[i].dependsOn :: h in dependers && i in dependers[h])
  }

  /** An orphan waits for all its parents but those in the block. */
  ghost predicate WaitsRight(o: Orphan, disk: set<Uint256>, done: set<Uint256>) {
    if o.dropped then o.dependsOn == {}
    else o.dependsOn <= Parents(o.tx, disk) && Parents(o.tx, disk) - o.dependsOn <= done
  }

  ghost predicate Waits(orphans: seq<Orphan>, disk: set<Uint256>, done: set<Uint256>) {
    forall i | 0 <= i < |orphans| :: WaitsRight(orphans[i], disk, done)
  }

  /** The parents of what is in the queue are in the block. */
  ghost predicate Ready(vec: seq<Entry>, disk: set<Uint256>, done: set<Uint256>) {
    forall k | 0 <= k < |vec| :: Parents(vec[k].tx, disk) <= done
  }

  /** A transaction is in one place only. */
  ghost predicate Apart(vec: seq<Entry>, orphans: seq<Orphan>, seen: set<Uint256>) {
    && (forall j, k | 0 <= j < k < |vec| :: vec[j].tx.hash != vec[k].tx.hash)
    && (forall i, j | 0 <= i < j < |orphans| :: orphans[i].tx.hash != orphans[j].tx.hash)
    && (forall k | 0 <= k < |vec| :: vec[k].tx.hash !in seen)
    && (forall i | 0 <= i < |orphans| && orphans[i].dependsOn != {} :: orphans[i].tx.hash !in seen)
    && (forall i, k | 0 <= i < |orphans| && orphans[i].dependsOn != {} && 0 <= k < |vec| ::
          orphans[i].tx.hash != vec[k].tx.hash)
  }

  ghost predicate IsQueued(t: Tx, vec: seq<Entry>) {
    exists k :: 0 <= k < |vec| && vec[k].tx == t
  }

  ghost predicate IsWaiting(t: Tx, orphans: seq<Orphan>) {
    exists i :: 0 <= i < |orphans| && orphans[i].tx == t && orphans[i].dependsOn != {}
  }

  /** Every transaction that may enter is somewhere. */
  ghost predicate Covers(txs: seq<Tx>, disk: set<Uint256>, known: set<Uint256>, vec: seq<Entry>, orphans: seq<Orphan>,
                         seen: set<Uint256>)
  {
    forall k | 0 <= k < |txs| && MayEnter(txs[k], disk, known) ::
      txs[k].hash in seen || IsQueued(txs[k], vec) || IsWaiting(txs[k], orphans)
  }

  /** Priorities and fees are those of the transactions. */
  ghost predicate Priced(w: World, vec: seq<Entry>, orphans: seq<Orphan>) {
    && (forall k | 0 <= k < |vec| :: vec[k] == EntryOf(w, vec[k].tx))
    && (forall i | 0 <= i < |orphans| && !orphans[i].dropped ::
          Entry(orphans[i].priority, orphans[i].feePerKb, orphans[i].tx) == EntryOf(w, orphans[i].tx))
  }

  ghost predicate PointsToDropped(orphans: seq<Orphan>, list: seq<nat>) {
    exists k :: 0 <= k < |list| && list[k] < |orphans| && orphans[list[k]].dropped
  }

  /** The transactions whose lists have a pointer to a dropped orphan. */
  ghost function StaleLists(orphans: seq<Orphan>, dependers: map<Uint256, seq<nat>>): set<Uint256> {
    set h | h in dependers && PointsToDropped(orphans, dependers[h])
  }

  ghost predicate FromPool(pool: seq<Tx>, vec: seq<Entry>, orphans: seq<Orphan>) {
    && (forall k | 0 <= k < |vec| :: vec[k].tx in pool && !vec[k].tx.passed)
    && (forall i | 0 <= i < |orphans| :: orphans[i].tx in pool && !orphans[i].tx.passed)
  }

  /** Nobody waits for a transaction in the block, except those still to be told of `hash`. */
  ghost predicate Told(orphans: seq<Orphan>, done: set<Uint256>, hash: Uint256, untold: seq<nat>) {
    forall i: nat, h | i < |orphans| && h in orphans[i].dependsOn && h in done :: h == hash && i in untold
  }

  /** All of it. */
  ghost predicate Kept(pool: seq<Tx>, w: World, vec: seq<Entry>, orphans: seq<Orphan>, dependers: map<Uint256, seq<nat>>,
                       done: set<Uint256>, seen: set<Uint256>, hash: Uint256, untold: seq<nat>)
  {
    && Linked(orphans, dependers) && Waits(orphans, w.disk, done) && Ready(vec, w.disk, done)
    && FromPool(pool, vec, orphans) && Priced(w, vec, orphans) && Apart(vec, orphans, seen)
    && Covers(pool, w.disk, Hashes(pool), vec, orphans, seen) && Told(orphans, done, hash, untold)
  }

  // ----- Collecting candidates

  ghost predicate Filed(pool: seq<Tx>, w: World, n: nat, vec: seq<Entry>, orphans: seq<Orphan>,
                        dependers: map<Uint256, seq<nat>>)
    requires n <= |pool|
  {
    && Linked(orphans, dependers) && Waits(orphans, w.disk, {}) && Ready(vec, w.disk, {})
    && FromPool(pool, vec, orphans) && Priced(w, vec, orphans) && Apart(vec, orphans, {})
    && Covers(pool[..n], w.disk, Hashes(pool), vec, orphans, {})
    && (forall k | 0 <= k < |vec| :: vec[k].tx.hash in Hashes(pool[..n]))
    && (forall i | 0 <= i < |orphans| :: orphans[i].tx.hash in Hashes(pool[..n]))
    && StaleLists(orphans, dependers) == StaleParents(pool[..n], w.disk, Hashes(pool))
  }

  /** `result` has `idx` once more in some lists, those of `parents` among them and no others. */
  ghost predicate Listed(dependers: map<Uint256, seq<nat>>, result: map<Uint256, seq<nat>>, idx: nat, parents: set<Uint256>) {
    && (forall h | h in dependers :: h in result && dependers[h] <= result[h])
    && (forall h, k | h in result && (if h in dependers then |dependers[h]| else 0) <= k < |result[h]| ::
          result[h][k] == idx && h in parents)
    && (forall h | h in parents :: h in result && idx in result[h])
  }

  /** Notes for each parent of a transaction that orphan `idx` waits for it, up to an input that
      is nowhere. */
  method FileInputs(tx: Tx, idx: nat, known: set<Uint256>, disk: set<Uint256>, dependers: map<Uint256, seq<nat>>)
    returns (fMissingInputs: bool, dependsOn: set<Uint256>, result: map<Uint256, seq<nat>>)
    ensures fMissingInputs <==> FirstMissing(tx.inputs, disk, known) < |tx.inputs|
    ensures dependsOn == Parents(tx.(inputs := tx.inputs[..FirstMissing(tx.inputs, disk, known)]), disk)
    ensures Listed(dependers, result, idx, dependsOn)
    ensures dependsOn == {} ==> result == dependers
  {
    dependsOn, result := {}, dependers;
    var i := 0;
    ghost var m := FirstMissing(tx.inputs, disk, known);
    while i < |tx.inputs|
      invariant 0 <= i <= m
      invariant dependsOn == Parents(tx.(inputs := tx.inputs[..i]), disk)
      invariant Listed(dependers, result, idx, dependsOn)
      invariant dependsOn == {} ==> result == dependers
    {
      var h := tx.inputs[i];
      if h !in disk && h !in known {
        return true, dependsOn, result;
      }
      ParentsNext(tx, i, disk);
      if h !in disk {
        var list := if h in result then result[h] else [];
        ListedNext(dependers, result, idx, dependsOn, h);
        result := result[h := list + [idx]];
        dependsOn := dependsOn + {h};
      }
      i := i + 1;
    }
    fMissingInputs := false;
  }

  lemma ListedNext(dependers: map<Uint256, seq<nat>>, result: map<Uint256, seq<nat>>, idx: nat, parents: set<Uint256>, h: Uint256)
    requires Listed(dependers, result, idx, parents)
    ensures Listed(dependers, result[h := (if h in result then result[h] else []) + [idx]], idx, parents + {h})
  {
    var list := if h in result then result[h] else [];
    var next := result[h := list + [idx]];
    assert next[h][|list|] == idx;
    forall g | g in dependers
      ensures g in next && dependers[g] <= next[g]
    {
      assert dependers[g] <= result[g] <= next[g];
    }
    forall g, k | g in next && (if g in dependers then |dependers[g]| else 0) <= k < |next[g]|
      ensures next[g][k] == idx && g in parents + {h}
    {
      if g != h || k < |list| {
        assert next[g][k] == result[g][k];
      }
    }
    forall g | g in parents + {h}
      ensures g in next && idx in next[g]
    {
      assert g == h || idx in result[g];
    }
    assert Listed(dependers, next, idx, parents + {h});
  }

  lemma ParentsNext(tx: Tx, i: nat, disk: set<Uint256>)
    requires i < |tx.inputs|
    ensures Parents(tx.(inputs := tx.inputs[..i + 1]), disk)
            == Parents(tx.(inputs := tx.inputs[..i]), disk) + (if tx.inputs[i] in disk then {} else {tx.inputs[i]})
  {
    var s, t := tx.inputs[..i], tx.inputs[..i + 1];
    forall h
      ensures h in Parents(tx.(inputs := t), disk)
              <==> h in Parents(tx.(inputs := s), disk) + (if tx.inputs[i] in disk then {} else {tx.inputs[i]})
    {
      if k :| 0 <= k < |s| && s[k] == h && h !in disk {
        assert t[k] == h;
      }
      if h == tx.inputs[i] && h !in disk {
        assert t[i] == h;
      }
    }
  }

  /** Sorts the pool into what can go to the queue and what has to wait; a transaction with a
      missing input does neither. */
  method Collect(pool: seq<Tx>, w: World)
    returns (vec: seq<Entry>, orphans: seq<Orphan>, dependers: map<Uint256, seq<nat>>)
    requires DistinctTxs(pool)
    ensures Filed(pool, w, |pool|, vec, orphans, dependers)
  {
    hide Filed, Listed, Hashes, Parents, FirstMissing;
    vec, orphans, dependers := [], [], map[];
    NothingFiled(pool, w);
    for n := 0 to |pool|
      invariant Filed(pool, w, n, vec, orphans, dependers)
    {
      var tx := pool[n];
      if tx.passed {
        FileNone(pool, w, n, vec, orphans, dependers);
      } else {
        var fMissingInputs, dependsOn, result := FileInputs(tx, |orphans|, Hashes(pool), w.disk, dependers);
        if fMissingInputs && dependsOn == {} {
          FileNone(pool, w, n, vec, orphans, dependers);
        } else if fMissingInputs {
          // the orphan has left the list again
          var o := Orphan(tx, {}, 0.0, 0.0, true);
          FileOrphan(pool, w, n, vec, orphans, dependers, o, dependsOn, result);
          orphans := orphans + [o];
          dependers := result;
        } else if dependsOn == {} {
          FileReady(pool, w, n, vec, orphans, dependers);
          vec := vec + [Entry(w.priority(tx), w.feePerKb(tx), tx)];
        } else {
          var o := Orphan(tx, dependsOn, w.priority(tx), w.feePerKb(tx), false);
          FileOrphan(pool, w, n, vec, orphans, dependers, o, dependsOn, result);
          orphans := orphans + [o];
          dependers := result;
        }
      }
    }
  }

  lemma NothingFiled(pool: seq<Tx>, w: World)
    ensures Filed(pool, w, 0, [], [], map[])
  {
  }

  lemma StaleNext(pool: seq<Tx>, n: nat, disk: set<Uint256>, known: set<Uint256>)
    requires n < |pool|
    ensures StaleParents(pool[..n + 1], disk, known) == StaleParents(pool[..n], disk, known) + LeftBehind(pool[n], disk, known)
  {
    hide LeftBehind;
    var s, t := pool[..n], pool[..n + 1];
    forall h
      ensures h in StaleParents(t, disk, known) <==> h in StaleParents(s, disk, known) + LeftBehind(pool[n], disk, known)
    {
      if k :| 0 <= k < |s| && h in LeftBehind(s[k], disk, known) {
        assert h in LeftBehind(t[k], disk, known);
      }
      if h in LeftBehind(pool[n], disk, known) {
        assert h in LeftBehind(t[n], disk, known);
      }
    }
  }

  lemma NewHash(pool: seq<Tx>, n: nat)
    requires n < |pool| && DistinctTxs(pool)
    ensures pool[n].hash !in Hashes(pool[..n])
  {
  }

  /** A transaction that may not enter, and leaves no pointers. */
  lemma FileNone(pool: seq<Tx>, w: World, n: nat, vec: seq<Entry>, orphans: seq<Orphan>, dependers: map<Uint256, seq<nat>>)
    requires n < |pool| && Filed(pool, w, n, vec, orphans, dependers)
    requires var m := FirstMissing(pool[n].inputs, w.disk, Hashes(pool));
             pool[n].passed || (m < |pool[n].inputs| && Parents(pool[n].(inputs := pool[n].inputs[..m]), w.disk) == {})
    ensures Filed(pool, w, n + 1, vec, orphans, dependers)
  {
    hide Hashes, Linked, Waits, Ready, Apart, Priced, IsQueued, IsWaiting, StaleLists, StaleParents, Parents, FirstMissing;
    HashesNext(pool, n);
    StaleNext(pool, n, w.disk, Hashes(pool));
  }

  lemma FileReady(pool: seq<Tx>, w: World, n: nat, vec: seq<Entry>, orphans: seq<Orphan>, dependers: map<Uint256, seq<nat>>)
    requires n < |pool| && DistinctTxs(pool) && Filed(pool, w, n, vec, orphans, dependers)
    requires var m := FirstMissing(pool[n].inputs, w.disk, Hashes(pool));
             !pool[n].passed && m == |pool[n].inputs| && Parents(pool[n].(inputs := pool[n].inputs[..m]), w.disk) == {}
    ensures Filed(pool, w, n + 1, vec + [EntryOf(w, pool[n])], orphans, dependers)
  {
    hide Hashes, Linked, Waits, Parents, DistinctTxs, IsWaiting, IsQueued, Covers, StaleLists, StaleParents, FirstMissing;
    assert pool[n].inputs[..|pool[n].inputs|] == pool[n].inputs;
    HashesNext(pool, n);
    StaleNext(pool, n, w.disk, Hashes(pool));
    NewHash(pool, n);
    CoversQueued(pool, w.disk, Hashes(pool), n, vec, orphans, {}, EntryOf(w, pool[n]));
  }

  lemma CoversQueued(pool: seq<Tx>, disk: set<Uint256>, known: set<Uint256>, n: nat, vec: seq<Entry>, orphans: seq<Orphan>,
                     seen: set<Uint256>, e: Entry)
    requires n < |pool| && Covers(pool[..n], disk, known, vec, orphans, seen) && e.tx == pool[n]
    ensures Covers(pool[..n + 1], disk, known, vec + [e], orphans, seen)
  {
    hide IsWaiting, MayEnter;
    var vec' := vec + [e];
    assert vec'[|vec|].tx == pool[n];
    forall k | 0 <= k < n && IsQueued(pool[k], vec)
      ensures IsQueued(pool[k], vec')
    {
      var j :| 0 <= j < |vec| && vec[j].tx == pool[k];
      assert vec'[j].tx == pool[k];
    }
  }

  /** A transaction that waits, or is dropped but left pointers. */
  lemma FileOrphan(pool: seq<Tx>, w: World, n: nat, vec: seq<Entry>, orphans: seq<Orphan>, dependers: map<Uint256, seq<nat>>,
                   o: Orphan, dependsOn: set<Uint256>, result: map<Uint256, seq<nat>>)
    requires n < |pool| && DistinctTxs(pool) && Filed(pool, w, n, vec, orphans, dependers)
    requires Listed(dependers, result, |orphans|, dependsOn) && dependsOn != {}
    requires var m := FirstMissing(pool[n].inputs, w.disk, Hashes(pool));
             && !pool[n].passed && dependsOn == Parents(pool[n].(inputs := pool[n].inputs[..m]), w.disk)
             && o == if m < |pool[n].inputs| then Orphan(pool[n], {}, 0.0, 0.0, true)
                     else Orphan(pool[n], dependsOn, w.priority(pool[n]), w.feePerKb(pool[n]), false)
    ensures Filed(pool, w, n + 1, vec, orphans + [o], result)
  {
    hide Hashes, Linked, Parents, DistinctTxs, IsWaiting, IsQueued, Covers, Ready, Listed, StaleLists, StaleParents, FirstMissing;
    assert pool[n].inputs[..|pool[n].inputs|] == pool[n].inputs;
    HashesNext(pool, n);
    StaleNext(pool, n, w.disk, Hashes(pool));
    NewHash(pool, n);
    CoversWaiting(pool, w.disk, Hashes(pool), n, vec, orphans, {}, o);
    LinkedMore(orphans, dependers, o, dependsOn, result);
    StaleMore(orphans, dependers, o, dependsOn, result);
  }

  lemma CoversWaiting(pool: seq<Tx>, disk: set<Uint256>, known: set<Uint256>, n: nat, vec: seq<Entry>, orphans: seq<Orphan>,
                      seen: set<Uint256>, o: Orphan)
    requires n < |pool| && Covers(pool[..n], disk, known, vec, orphans, seen)
    requires o.tx == pool[n] && (MayEnter(pool[n], disk, known) ==> o.dependsOn != {})
    ensures Covers(pool[..n + 1], disk, known, vec, orphans + [o], seen)
  {
    hide IsQueued, MayEnter;
    var orphans' := orphans + [o];
    assert orphans'[|orphans|].tx == pool[n];
    forall k | 0 <= k < n && IsWaiting(pool[k], orphans)
      ensures IsWaiting(pool[k], orphans')
    {
      var j :| 0 <= j < |orphans| && orphans[j].tx == pool[k] && orphans[j].dependsOn != {};
      assert orphans'[j].tx == pool[k];
    }
  }

  lemma LinkedMore(orphans: seq<Orphan>, dependers: map<Uint256, seq<nat>>, o: Orphan, dependsOn: set<Uint256>,
                   result: map<Uint256, seq<nat>>)
    requires Linked(orphans, dependers) && Listed(dependers, result, |orphans|, dependsOn) && o.dependsOn <= dependsOn
    ensures Linked(orphans + [o], result)
  {
    var orphans' := orphans + [o];
    forall h, k | h in result && 0 <= k < |result[h]|
      ensures result[h][k] < |orphans'|
    {
      if h in dependers && k < |dependers[h]| {
        assert result[h][k] == dependers[h][k];
      }
    }
    forall i, h | 0 <= i < |orphans'| && h in orphans'[i].dependsOn
      ensures h in result && i in result[h]
    {
      if i < |orphans| {
        var k :| 0 <= k < |dependers[h]| && dependers[h][k] == i;
        assert result[h][k] == i;
      }
    }
  }

  lemma StaleMore(orphans: seq<Orphan>, dependers: map<Uint256, seq<nat>>, o: Orphan, dependsOn: set<Uint256>,
                  result: map<Uint256, seq<nat>>)
    requires Linked(orphans, dependers) && Listed(dependers, result, |orphans|, dependsOn)
    ensures StaleLists(orphans + [o], result) == StaleLists(orphans, dependers) + if o.dropped then dependsOn else {}
  {
    var orphans' := orphans + [o];
    forall h
      ensures h in StaleLists(orphans', result) <==> h in StaleLists(orphans, dependers) + if o.dropped then dependsOn else {}
    {
      if h in StaleLists(orphans, dependers) {
        var k :| 0 <= k < |dependers[h]| && orphans[dependers[h][k]].dropped;
        assert result[h][k] == dependers[h][k];
      }
      if o.dropped && h in dependsOn {
        var k :| 0 <= k < |result[h]| && result[h][k] == |orphans|;
        assert orphans'[result[h][k]].dropped;
      }
      if h in StaleLists(orphans', result) {
        var k :| 0 <= k < |result[h]| && result[h][k] < |orphans'| && orphans'[result[h][k]].dropped;
        if h in dependers && k < |dependers[h]| {
          assert result[h][k] == dependers[h][k];
        }
      }
    }
  }

  // ----- The priority queue

  /** The order of the queue does not matter for what is kept. */
  lemma PermuteKeeps(pool: seq<Tx>, w: World, vec: seq<Entry>, vec': seq<Entry>, orphans: seq<Orphan>,
                     dependers: map<Uint256, seq<nat>>, done: set<Uint256>, seen: set<Uint256>, hash: Uint256, untold: seq<nat>)
    requires Kept(pool, w, vec, orphans, dependers, done, seen, hash, untold) && multiset(vec') == multiset(vec)
    ensures Kept(pool, w, vec', orphans, dependers, done, seen, hash, untold)
  {
    hide Linked, Waits, Told, Parents, Hashes, MayEnter, IsWaiting, EntryOf;
    forall k | 0 <= k < |vec'|
      ensures vec'[k] in vec
    {
      assert vec'[k] in multiset(vec');
    }
    PermuteDistinct(vec, vec');
    forall t | IsQueued(t, vec)
      ensures IsQueued(t, vec')
    {
      var k :| 0 <= k < |vec| && vec[k].tx == t;
      assert vec[k] in multiset(vec);
      var j :| 0 <= j < |vec'| && vec'[j] == vec[k];
      assert vec'[j].tx == t;
    }
  }

  lemma PermuteDistinct(s: seq<Entry>, t: seq<Entry>)
    requires multiset(s) == multiset(t) && forall j, k | 0 <= j < k < |s| :: s[j].tx.hash != s[k].tx.hash
    ensures forall j, k | 0 <= j < k < |t| :: t[j].tx.hash != t[k].tx.hash
  {
    forall j, k | 0 <= j < k < |t|
      ensures t[j].tx.hash != t[k].tx.hash
    {
      assert t[j] in multiset(s) && t[k] in multiset(s);
      if t[j] == t[k] {
        TwoOf(t, j, k);
        OneOf(s, t[j]);
      }
    }
  }

  lemma TwoOf(t: seq<Entry>, j: nat, k: nat)
    requires j < k < |t| && t[j] == t[k]
    ensures multiset(t)[t[j]] >= 2
  {
    assert t == t[..k] + t[k..];
    assert t[..k][j] == t[j] && t[k..][0] == t[j];
    assert t[j] in multiset(t[..k]) && t[j] in multiset(t[k..]);
  }

  lemma {:induction false} OneOf(s: seq<Entry>, e: Entry)
    requires forall j, k | 0 <= j < k < |s| :: s[j].tx.hash != s[k].tx.hash
    ensures multiset(s)[e] <= 1
  {
    if |s| > 0 {
      var n := |s| - 1;
      OneOf(s[..n], e);
      assert s == s[..n] + [s[n]];
      assert forall j | 0 <= j < n :: s[..n][j].tx.hash != s[n].tx.hash;
      assert s[n] !in s[..n];
    }
  }

  /** The front leaves the queue. */
  lemma PopKeeps(pool: seq<Tx>, w: World, vec: seq<Entry>, rest: seq<Entry>, orphans: seq<Orphan>,
                 dependers: map<Uint256, seq<nat>>, done: set<Uint256>, seen: set<Uint256>)
    requires |vec| > 0 && Kept(pool, w, vec, orphans, dependers, done, seen, 0, []) && multiset(rest) == multiset(vec[1..])
    ensures Kept(pool, w, rest, orphans, dependers, done, seen + {vec[0].tx.hash}, 0, [])
    ensures Parents(vec[0].tx, w.disk) <= done && vec[0].tx.hash !in seen && vec[0].tx in pool && !vec[0].tx.passed
  {
    assert Kept(pool, w, vec[1..], orphans, dependers, done, seen + {vec[0].tx.hash}, 0, []) by {
      hide Linked, Waits, Parents, Covers, Told;
      PopCovers(pool, w.disk, Hashes(pool), vec, orphans, seen);
      hide Hashes;
    }
    PermuteKeeps(pool, w, vec[1..], rest, orphans, dependers, done, seen + {vec[0].tx.hash}, 0, []);
    hide Linked, Waits, Parents, Covers, Told;
  }

  lemma PopCovers(pool: seq<Tx>, disk: set<Uint256>, known: set<Uint256>, vec: seq<Entry>, orphans: seq<Orphan>,
                  seen: set<Uint256>)
    requires |vec| > 0 && Covers(pool, disk, known, vec, orphans, seen)
    ensures Covers(pool, disk, known, vec[1..], orphans, seen + {vec[0].tx.hash})
  {
    hide IsWaiting, MayEnter;
    forall n | 0 <= n < |pool| && IsQueued(pool[n], vec)
      ensures pool[n].hash in seen + {vec[0].tx.hash} || IsQueued(pool[n], vec[1..])
    {
      var j :| 0 <= j < |vec| && vec[j].tx == pool[n];
      if j > 0 {
        assert vec[1..][j - 1].tx == pool[n];
      }
    }
  }

  // ----- Telling those who wait

  /** The waiting orphans. */
  function WaitingCount(orphans: seq<Orphan>): nat {
    if |orphans| == 0 then 0
    else WaitingCount(orphans[..|orphans| - 1]) + if orphans[|orphans| - 1].dependsOn == {} then 0 else 1
  }

  lemma {:induction false} WaitingLess(orphans: seq<Orphan>, i: nat, o: Orphan)
    requires i < |orphans| && orphans[i].dependsOn != {}
    ensures WaitingCount(orphans[i := o]) == WaitingCount(orphans) - if o.dependsOn == {} then 1 else 0
  {
    var n := |orphans| - 1;
    if i < n {
      WaitingLess(orphans[..n], i, o);
      assert orphans[i := o][..n] == orphans[..n][i := o];
    } else {
      assert orphans[i := o][..n] == orphans[..n];
    }
  }

  /** A transaction enters the block; those in its list are not told yet. */
  lemma IncludeKeeps(pool: seq<Tx>, w: World, vec: seq<Entry>, orphans: seq<Orphan>, dependers: map<Uint256, seq<nat>>,
                     done: set<Uint256>, seen: set<Uint256>, hash: Uint256)
    requires Kept(pool, w, vec, orphans, dependers, done, seen, 0, [])
    ensures Kept(pool, w, vec, orphans, dependers, done + {hash}, seen, hash, if hash in dependers then dependers[hash] else [])
  {
    hide Apart, Covers, Parents, Priced;
  }

  function Erased(o: Orphan, hash: Uint256): Orphan {
    o.(dependsOn := o.dependsOn - {hash})
  }

  /** One of the list is told, and goes to the queue when it waits for nothing more. */
  lemma EraseKeeps(pool: seq<Tx>, w: World, vec: seq<Entry>, orphans: seq<Orphan>, dependers: map<Uint256, seq<nat>>,
                   done: set<Uint256>, seen: set<Uint256>, hash: Uint256, i: nat, untold: seq<nat>)
    requires i < |orphans| && orphans[i].dependsOn != {} && hash in done
    requires Kept(pool, w, vec, orphans, dependers, done, seen, hash, [i] + untold)
    ensures var o := Erased(orphans[i], hash);
            var vec' := if o.dependsOn == {} then vec + [Entry(o.priority, o.feePerKb, o.tx)] else vec;
            Kept(pool, w, vec', orphans[i := o], dependers, done, seen, hash, untold)
  {
    hide Linked, Ready, Apart, Covers, Told, Parents, Hashes, EntryOf;
    assert FromPool(pool, vec, orphans);
    assert WaitsRight(orphans[i], w.disk, done);
    hide Waits;
    EraseLinks(orphans, dependers, hash, i);
    EraseWaits(vec, orphans, w.disk, done, hash, i);
    EraseApart(vec, orphans, seen, hash, i);
    EraseCovers(pool, w.disk, Hashes(pool), vec, orphans, seen, hash, i);
    EraseTold(orphans, done, hash, i, untold);
  }

  lemma EraseLinks(orphans: seq<Orphan>, dependers: map<Uint256, seq<nat>>, hash: Uint256, i: nat)
    requires i < |orphans| && Linked(orphans, dependers)
    ensures Linked(orphans[i := Erased(orphans[i], hash)], dependers)
  {
  }

  lemma EraseWaits(vec: seq<Entry>, orphans: seq<Orphan>, disk: set<Uint256>, done: set<Uint256>, hash: Uint256, i: nat)
    requires i < |orphans| && orphans[i].dependsOn != {} && hash in done
    requires Waits(orphans, disk, done) && Ready(vec, disk, done)
    ensures var o := Erased(orphans[i], hash);
            && Waits(orphans[i := o], disk, done)
            && (o.dependsOn == {} ==> Ready(vec + [Entry(o.priority, o.feePerKb, o.tx)], disk, done))
  {
    hide Parents;
    var o := Erased(orphans[i], hash);
    assert WaitsRight(orphans[i], disk, done);
    assert WaitsRight(o, disk, done);
    var next := orphans[i := o];
    forall j | 0 <= j < |next|
      ensures WaitsRight(next[j], disk, done)
    {
      assert WaitsRight(orphans[j], disk, done);
    }
  }

  lemma EraseApart(vec: seq<Entry>, orphans: seq<Orphan>, seen: set<Uint256>, hash: Uint256, i: nat)
    requires i < |orphans| && orphans[i].dependsOn != {} && Apart(vec, orphans, seen)
    ensures var o := Erased(orphans[i], hash);
            var vec' := if o.dependsOn == {} then vec + [Entry(o.priority, o.feePerKb, o.tx)] else vec;
            Apart(vec', orphans[i := o], seen)
  {
  }

  lemma EraseCovers(pool: seq<Tx>, disk: set<Uint256>, known: set<Uint256>, vec: seq<Entry>, orphans: seq<Orphan>,
                    seen: set<Uint256>, hash: Uint256, i: nat)
    requires i < |orphans| && orphans[i].dependsOn != {} && Covers(pool, disk, known, vec, orphans, seen)
    ensures var o := Erased(orphans[i], hash);
            var vec' := if o.dependsOn == {} then vec + [Entry(o.priority, o.feePerKb, o.tx)] else vec;
            Covers(pool, disk, known, vec', orphans[i := o], seen)
  {
    hide MayEnter;
    var o := Erased(orphans[i], hash);
    var vec' := if o.dependsOn == {} then vec + [Entry(o.priority, o.feePerKb, o.tx)] else vec;
    forall n | 0 <= n < |pool| && IsQueued(pool[n], vec)
      ensures IsQueued(pool[n], vec')
    {
      var j :| 0 <= j < |vec| && vec[j].tx == pool[n];
      assert vec'[j].tx == pool[n];
    }
    forall n | 0 <= n < |pool| && IsWaiting(pool[n], orphans)
      ensures IsQueued(pool[n], vec') || IsWaiting(pool[n], orphans[i := o])
    {
      var j :| 0 <= j < |orphans| && orphans[j].tx == pool[n] && orphans[j].dependsOn != {};
      assert orphans[i := o][j].tx == pool[n];
      if j == i && o.dependsOn == {} {
        assert vec'[|vec|].tx == pool[n];
      }
    }
  }

  lemma EraseTold(orphans: seq<Orphan>, done: set<Uint256>, hash: Uint256, i: nat, untold: seq<nat>)
    requires i < |orphans| && Told(orphans, done, hash, [i] + untold)
    ensures Told(orphans[i := Erased(orphans[i], hash)], done, hash, untold)
  {
    var orphans' := orphans[i := Erased(orphans[i], hash)];
    forall j: nat, h | j < |orphans'| && h in orphans'[j].dependsOn && h in done
      ensures h == hash && j in untold
    {
      assert h in orphans[j].dependsOn;
      assert j in [i] + untold;
    }
  }

  /** An orphan that no longer waits has nothing to be told. */
  lemma SkipKeeps(pool: seq<Tx>, w: World, vec: seq<Entry>, orphans: seq<Orphan>, dependers: map<Uint256, seq<nat>>,
                  done: set<Uint256>, seen: set<Uint256>, hash: Uint256, i: nat, untold: seq<nat>)
    requires i < |orphans| && orphans[i].dependsOn == {}
    requires Kept(pool, w, vec, orphans, dependers, done, seen, hash, [i] + untold)
    ensures Kept(pool, w, vec, orphans, dependers, done, seen, hash, untold)
  {
    hide Linked, Waits, Ready, Apart, Covers;
    forall j: nat, h | j < |orphans| && h in orphans[j].dependsOn && h in done
      ensures h == hash && j in untold
    {
      assert j in [i] + untold;
    }
  }

  /** Adds the transactions that depend on this one to the queue; fails when that takes it to
      an orphan that was dropped. */
  method TellDependers(ghost pool: seq<Tx>, ghost w: World, vec: seq<Entry>, orphans: seq<Orphan>,
                       dependers: map<Uint256, seq<nat>>, ghost done: set<Uint256>, ghost seen: set<Uint256>, hash: Uint256,
                       byFee: bool)
    returns (ok: bool, vec': seq<Entry>, orphans': seq<Orphan>)
    requires hash in done && IsHeap(vec, byFee)
    requires Kept(pool, w, vec, orphans, dependers, done, seen, hash, if hash in dependers then dependers[hash] else [])
    ensures ok <==> hash !in StaleLists(orphans, dependers)
    ensures ok ==> Kept(pool, w, vec', orphans', dependers, done, seen, 0, [])
    ensures ok ==> SameDropped(orphans, orphans') && IsHeap(vec', byFee)
    ensures ok ==> |vec'| + WaitingCount(orphans') == |vec| + WaitingCount(orphans)
  {
    hide Kept, WaitingCount, StaleLists, PointsToDropped, IsHeap;
    vec', orphans' := vec, orphans;
    if hash in dependers {
      var list := dependers[hash];
      var m := 0;
      assert list[0..] == list;
      while m < |list|
        invariant 0 <= m <= |list| && SameDropped(orphans, orphans') && IsHeap(vec', byFee)
        invariant forall k | 0 <= k < m :: list[k] < |orphans| && !orphans[list[k]].dropped
        invariant Kept(pool, w, vec', orphans', dependers, done, seen, hash, list[m..])
        invariant |vec'| + WaitingCount(orphans') == |vec| + WaitingCount(orphans)
      {
        var i := list[m];
        ListedExists(pool, w, vec', orphans', dependers, done, seen, hash, list[m..], m);
        assert list[m..] == [i] + list[m + 1..];
        if orphans'[i].dropped {
          IsStale(orphans, dependers, hash, m);
          return false, vec', orphans';
        }
        if orphans'[i].dependsOn != {} {
          var o := Erased(orphans'[i], hash);
          EraseKeeps(pool, w, vec', orphans', dependers, done, seen, hash, i, list[m + 1..]);
          WaitingLess(orphans', i, o);
          orphans' := orphans'[i := o];
          if o.dependsOn == {} {
            ghost var pushed := vec' + [Entry(o.priority, o.feePerKb, o.tx)];
            assert pushed[..|vec'|] == vec';
            vec' := PushHeap(vec' + [Entry(o.priority, o.feePerKb, o.tx)], byFee);
            PermuteKeeps(pool, w, pushed, vec', orphans', dependers, done, seen, hash, list[m + 1..]);
          }
        } else {
          SkipKeeps(pool, w, vec', orphans', dependers, done, seen, hash, i, list[m + 1..]);
        }
        m := m + 1;
      }
      assert list[m..] == [];
    }
    NotStale(orphans, dependers, hash);
    AllTold(pool, w, vec', orphans', dependers, done, seen, hash);
    ok := true;
  }

  ghost predicate SameDropped(orphans: seq<Orphan>, orphans': seq<Orphan>) {
    |orphans'| == |orphans| && forall i | 0 <= i < |orphans| :: orphans'[i].dropped == orphans[i].dropped
  }

  lemma IsStale(orphans: seq<Orphan>, dependers: map<Uint256, seq<nat>>, hash: Uint256, m: nat)
    requires hash in dependers && m < |dependers[hash]| && dependers[hash][m] < |orphans| && orphans[dependers[hash][m]].dropped
    ensures hash in StaleLists(orphans, dependers)
  {
  }

  lemma NotStale(orphans: seq<Orphan>, dependers: map<Uint256, seq<nat>>, hash: Uint256)
    requires hash in dependers ==>
               forall k | 0 <= k < |dependers[hash]| :: dependers[hash][k] < |orphans| && !orphans[dependers[hash][k]].dropped
    ensures hash !in StaleLists(orphans, dependers)
  {
  }

  lemma SameStale(orphans: seq<Orphan>, orphans': seq<Orphan>, dependers: map<Uint256, seq<nat>>)
    requires SameDropped(orphans, orphans')
    ensures StaleLists(orphans', dependers) == StaleLists(orphans, dependers)
  {
    forall h | h in dependers
      ensures PointsToDropped(orphans', dependers[h]) <==> PointsToDropped(orphans, dependers[h])
    {
      if k :| 0 <= k < |dependers[h]| && dependers[h][k] < |orphans| && orphans[dependers[h][k]].dropped {
        assert orphans'[dependers[h][k]].dropped;
      }
      if k :| 0 <= k < |dependers[h]| && dependers[h][k] < |orphans'| && orphans'[dependers[h][k]].dropped {
        assert orphans[dependers[h][k]].dropped;
      }
    }
  }

  lemma ListedExists(pool: seq<Tx>, w: World, vec: seq<Entry>, orphans: seq<Orphan>, dependers: map<Uint256, seq<nat>>,
                     done: set<Uint256>, seen: set<Uint256>, hash: Uint256, untold: seq<nat>, m: nat)
    requires Kept(pool, w, vec, orphans, dependers, done, seen, hash, untold)
    requires hash in dependers && m < |dependers[hash]|
    ensures dependers[hash][m] < |orphans|
  {
    hide Waits, Ready, Apart, Covers, Told;
  }

  lemma AllTold(pool: seq<Tx>, w: World, vec: seq<Entry>, orphans: seq<Orphan>, dependers: map<Uint256, seq<nat>>,
                done: set<Uint256>, seen: set<Uint256>, hash: Uint256)
    requires Kept(pool, w, vec, orphans, dependers, done, seen, hash, [])
    ensures Kept(pool, w, vec, orphans, dependers, done, seen, 0, [])
  {
    hide Linked, Waits, Ready, Apart, Covers;
  }

  // ----- Filling the block

  /** The candidates in the queue are the ready transactions. */
  lemma QueueIsReady(pool: seq<Tx>, w: World, vec: seq<Entry>, orphans: seq<Orphan>, dependers: map<Uint256, seq<nat>>,
                     turns: seq<Turn>, t: Tx)
    requires Kept(pool, w, vec, orphans, dependers, Hashes(Entered(turns)), Seen(turns), 0, [])
    requires Hashes(Entered(turns)) <= Hashes(pool)
    ensures IsReady(pool, w, turns, t) <==> IsQueued(t, vec)
  {
    var done, seen := Hashes(Entered(turns)), Seen(turns);
    hide Linked, Priced, Hashes, Entered, Seen;
    if IsReady(pool, w, turns, t) {
      ParentsKnown(t, w.disk, Hashes(pool));
      hide MayEnter, Parents;
      var k :| 0 <= k < |pool| && pool[k] == t;
      if IsWaiting(t, orphans) {
        WaitingLacks(t, orphans, w.disk, done);
      }
    }
  }

  /** What waits, waits for a parent that is not in the block. */
  lemma WaitingLacks(t: Tx, orphans: seq<Orphan>, disk: set<Uint256>, done: set<Uint256>)
    requires IsWaiting(t, orphans) && Waits(orphans, disk, done) && Told(orphans, done, 0, [])
    ensures !(Parents(t, disk) <= done)
  {
    hide Parents;
    var i :| 0 <= i < |orphans| && orphans[i].tx == t && orphans[i].dependsOn != {};
    assert WaitsRight(orphans[i], disk, done);
    var h :| h in orphans[i].dependsOn;
    assert h in Parents(t, disk) && h !in done;
  }

  lemma ParentsKnown(t: Tx, disk: set<Uint256>, known: set<Uint256>)
    requires !t.passed && Parents(t, disk) <= known
    ensures MayEnter(t, disk, known)
  {
    forall i | 0 <= i < |t.inputs| && t.inputs[i] !in disk
      ensures t.inputs[i] in known
    {
      assert t.inputs[i] in Parents(t, disk);
    }
  }

  /** The top of the queue is the next turn. */
  lemma TopIsTurn(pool: seq<Tx>, w: World, l: Limits, vec: seq<Entry>, orphans: seq<Orphan>, dependers: map<Uint256, seq<nat>>,
                  turns: seq<Turn>, k: nat, next: Turn)
    requires Kept(pool, w, vec, orphans, dependers, Hashes(Entered(turns)), Seen(turns), 0, [])
    requires Hashes(Entered(turns)) <= Hashes(pool) && IsTop(vec, k, next.byFee)
    requires next.tx == vec[k].tx && next.byFee == ByFee(w, l, turns)
    requires next.added == Passes(w, l, next.tx, Entered(turns), next.byFee)
    ensures IsTurn(pool, w, l, turns, next) && vec[k] == EntryOf(w, next.tx)
  {
    assert Priced(w, vec, orphans);
    hide Kept, IsReady, Passes, ByFee, Less, EntryOf, Hashes, Entered, Seen;
    assert IsQueued(next.tx, vec);
    QueueIsReady(pool, w, vec, orphans, dependers, turns, next.tx);
    forall t | IsReady(pool, w, turns, t)
      ensures !Less(next.byFee, EntryOf(w, next.tx), EntryOf(w, t))
    {
      QueueIsReady(pool, w, vec, orphans, dependers, turns, t);
      var j :| 0 <= j < |vec| && vec[j].tx == t;
    }
  }

  /** With the queue empty, nothing is ready. */
  lemma EmptyIsOver(pool: seq<Tx>, w: World, vec: seq<Entry>, orphans: seq<Orphan>, dependers: map<Uint256, seq<nat>>,
                    turns: seq<Turn>)
    requires Kept(pool, w, vec, orphans, dependers, Hashes(Entered(turns)), Seen(turns), 0, []) && |vec| == 0
    requires Hashes(Entered(turns)) <= Hashes(pool)
    ensures IsOver(pool, w, turns)
  {
    hide Kept, IsReady, Hashes, Entered, Seen;
    forall t
      ensures !IsReady(pool, w, turns, t)
    {
      QueueIsReady(pool, w, vec, orphans, dependers, turns, t);
    }
  }

  lemma TakenKnown(pool: seq<Tx>, vtx: seq<Tx>)
    requires Taken(pool, vtx)
    ensures Hashes(vtx) <= Hashes(pool)
  {
    forall h | h in Hashes(vtx)
      ensures h in Hashes(pool)
    {
      var j :| 0 <= j < |vtx| && vtx[j].hash == h;
      var k :| 0 <= k < |pool| && pool[k] == vtx[j];
    }
  }

  /** What the block holds is the outcome of a run, and of one that is over when `ok`. */
  ghost predicate IsOutcome(pool: seq<Tx>, w: World, l: Limits, vtx: seq<Tx>, ok: bool) {
    exists turns :: IsRunFor(pool, w, l, vtx, turns) && (ok ==> IsOver(pool, w, turns) && Complete(pool, w, l, turns))
  }

  ghost predicate IsRunFor(pool: seq<Tx>, w: World, l: Limits, vtx: seq<Tx>, turns: seq<Turn>) {
    IsRun(pool, w, l, turns) && vtx == Entered(turns)
  }

  /** Fills the block. It fails only by following a pointer that a transaction with a missing input
      left behind. */
  method CreateNewBlock(pool: seq<Tx>, w: World, limits: Limits, maxSize: nat, prioritySize: nat, minSize: nat)
    returns (ok: bool, l: Limits, vtx: seq<Tx>, nBlockSize: nat, nBlockSigOps: nat, nFees: int)
    requires DistinctTxs(pool)
    ensures l == Bounded(maxSize, prioritySize, minSize, limits) && nBlockSize <= l.nBlockMaxSize
    ensures Taken(pool, vtx) && BlockOk(w, l, vtx, nBlockSize, nBlockSigOps, nFees)
    ensures IsOutcome(pool, w, l, vtx, ok)
    ensures ok <==> Hashes(vtx) !! StaleParents(pool, w.disk, Hashes(pool))
    ensures NoneEnterable(pool, w.disk) ==> ok
    ensures AcceptsAll(pool, w, l) ==> (ok <==> NoneEnterable(pool, w.disk))
  {
    hide *;
    l := Bounded(maxSize, prioritySize, minSize, limits);
    var vec0, orphans, dependers := Collect(pool, w);
    vtx, nBlockSize, nBlockSigOps, nFees := [], 1000, 100, 0;
    var included: set<Uint256> := {};
    ghost var turns: seq<Turn> := [];
    ghost var stale := StaleParents(pool, w.disk, Hashes(pool));
    var fSortedByFee := l.nBlockPrioritySize <= 0;
    StartKept(pool, w, l, vec0, orphans, dependers);
    var vec := MakeHeap(vec0, fSortedByFee);
    PermuteKeeps(pool, w, vec0, vec, orphans, dependers, {}, Seen(turns), 0, []);
    while |vec| > 0
      invariant Kept(pool, w, vec, orphans, dependers, included, Seen(turns), 0, [])
      invariant BlockOk(w, l, vtx, nBlockSize, nBlockSigOps, nFees) && Taken(pool, vtx) && nBlockSize <= l.nBlockMaxSize
      invariant included == Hashes(vtx) <= Seen(turns) && included !! stale && StaleLists(orphans, dependers) == stale
      invariant IsRun(pool, w, l, turns) && vtx == Entered(turns) && fSortedByFee == ByFee(w, l, turns)
      invariant IsHeap(vec, fSortedByFee)
      decreases |vec| + WaitingCount(orphans)
    {
      var e, rest := PopHeap(vec, fSortedByFee);
      ghost var next := Turn(e.tx, fSortedByFee, Passes(w, l, e.tx, vtx, fSortedByFee));
      ghost var before := turns;
      TakenKnown(pool, vtx);
      TopIsTurn(pool, w, l, vec, orphans, dependers, turns, 0, next);
      RunNext(pool, w, l, turns, next);
      PopKeeps(pool, w, vec, rest, orphans, dependers, included, Seen(turns));
      BlockTotals(w, l, vtx, nBlockSize, nBlockSigOps, nFees);
      PassesParts(w, l, e, vtx, fSortedByFee);
      SwitchesParts(w, l, e, nBlockSize, nBlockSigOps);
      ghost var count := |vec| + WaitingCount(orphans);
      turns := turns + [next];
      vec := rest;
      var nTxSize := e.tx.size;
      if nBlockSize + nTxSize >= l.nBlockMaxSize {
        continue;
      }
      var nTxSigOps := e.tx.sigOps;
      if nBlockSigOps + nTxSigOps >= MAX_BLOCK_SIGOPS {
        continue;
      }
      if e.tx.time > l.adjustedTime || (l.fProofOfStake && e.tx.time > l.coinbaseTime) {
        continue;
      }
      var nMinFee := (w.minFee)(e.tx, nBlockSize);
      if fSortedByFee && e.feePerKb < l.nMinTxFee && nBlockSize + nTxSize >= l.nBlockMinSize {
        continue;
      }
      if !fSortedByFee && (nBlockSize + nTxSize >= l.nBlockPrioritySize || e.priority < (COIN * 144 / 250) as real) {
        fSortedByFee := true;
        vec := MakeHeap(rest, fSortedByFee);
        PermuteKeeps(pool, w, rest, vec, orphans, dependers, included, Seen(turns), 0, []);
      }
      if !(w.fetchOk)(e.tx, included) {
        continue;
      }
      var nTxFees := (w.fees)(e.tx);
      if nTxFees < nMinFee {
        continue;
      }
      nTxSigOps := nTxSigOps + (w.p2shSigOps)(e.tx);
      if nBlockSigOps + nTxSigOps >= MAX_BLOCK_SIGOPS {
        continue;
      }
      if !(w.connectOk)(e.tx, included) {
        continue;
      }
      BlockGrows(w, l, vtx, nBlockSize, nBlockSigOps, nFees, e.tx);
      TakenMore(pool, vtx, e.tx);
      IncludeKeeps(pool, w, vec, orphans, dependers, included, Seen(turns), e.tx.hash);
      included := included + {e.tx.hash};
      vtx := vtx + [e.tx];
      nBlockSize := nBlockSize + nTxSize;
      nBlockSigOps := nBlockSigOps + nTxSigOps;
      nFees := nFees + nTxFees;
      ghost var orphans0 := orphans;
      ok, vec, orphans := TellDependers(pool, w, vec, orphans, dependers, included, Seen(turns), e.tx.hash, fSortedByFee);
      if !ok {
        RunOutcome(pool, w, l, vtx, turns, false);
        if NoneEnterable(pool, w.disk) {
          NoneReached(pool, w, l, turns);
        }
        return;
      }
      SameStale(orphans0, orphans, dependers);
    }
    TakenKnown(pool, vtx);
    EmptyIsOver(pool, w, vec, orphans, dependers, turns);
    RunComplete(pool, w, l, turns);
    RunOutcome(pool, w, l, vtx, turns, true);
    if AcceptsAll(pool, w, l) && !NoneEnterable(pool, w.disk) {
      SomeReached(pool, w, l, turns);
    }
    ok := true;
  }

  lemma RunOutcome(pool: seq<Tx>, w: World, l: Limits, vtx: seq<Tx>, turns: seq<Turn>, ok: bool)
    requires IsRun(pool, w, l, turns) && vtx == Entered(turns)
    requires ok ==> IsOver(pool, w, turns) && Complete(pool, w, l, turns)
    ensures IsOutcome(pool, w, l, vtx, ok)
  {
    hide IsRun, IsOver, Complete, Entered;
    assert IsRunFor(pool, w, l, vtx, turns);
  }

  lemma StartKept(pool: seq<Tx>, w: World, l: Limits, vec: seq<Entry>, orphans: seq<Orphan>, dependers: map<Uint256, seq<nat>>)
    requires Filed(pool, w, |pool|, vec, orphans, dependers)
    ensures Kept(pool, w, vec, orphans, dependers, {}, Seen([]), 0, [])
    ensures StaleLists(orphans, dependers) == StaleParents(pool, w.disk, Hashes(pool))
    ensures BlockOk(w, l, [], 1000, 100, 0) && Hashes([]) == {} && Taken(pool, [])
    ensures IsRun(pool, w, l, []) && Entered([]) == [] && Seen([]) == {} && ByFee(w, l, []) == (l.nBlockPrioritySize <= 0)
  {
    hide Linked, Waits, Ready, Apart, Covers, Priced, StaleLists, StaleParents;
    assert pool[..|pool|] == pool;
  }

  lemma TakenMore(pool: seq<Tx>, vtx: seq<Tx>, tx: Tx)
    requires Taken(pool, vtx) && tx in pool && !tx.passed
    ensures Taken(pool, vtx + [tx])
  {
  }

  lemma BlockTotals(w: World, l: Limits, vtx: seq<Tx>, nBlockSize: nat, nBlockSigOps: nat, nFees: int)
    requires BlockOk(w, l, vtx, nBlockSize, nBlockSigOps, nFees)
    ensures nBlockSize == SizeOf(vtx) && nBlockSigOps == OpsOf(vtx, w)
  {
  }

  lemma PassesParts(w: World, l: Limits, e: Entry, vtx: seq<Tx>, byFee: bool)
    requires e == EntryOf(w, e.tx)
    ensures Passes(w, l, e.tx, vtx, byFee) <==>
              var size, sigOps := SizeOf(vtx), OpsOf(vtx, w);
              && size + e.tx.size < l.nBlockMaxSize && sigOps + e.tx.sigOps + (w.p2shSigOps)(e.tx) < MAX_BLOCK_SIGOPS
              && e.tx.time <= l.adjustedTime && (l.fProofOfStake ==> e.tx.time <= l.coinbaseTime)
              && (byFee && e.feePerKb < l.nMinTxFee ==> size + e.tx.size < l.nBlockMinSize)
              && (w.fetchOk)(e.tx, Hashes(vtx)) && (w.fees)(e.tx) >= (w.minFee)(e.tx, size)
              && (w.connectOk)(e.tx, Hashes(vtx))
  {
    hide SizeOf, OpsOf, Hashes;
  }

  lemma SwitchesParts(w: World, l: Limits, e: Entry, size: nat, sigOps: nat)
    ensures Switches(w, l, e, size, sigOps) <==>
              && size + e.tx.size < l.nBlockMaxSize && sigOps + e.tx.sigOps < MAX_BLOCK_SIGOPS
              && e.tx.time <= l.adjustedTime && (l.fProofOfStake ==> e.tx.time <= l.coinbaseTime)
              && (size + e.tx.size >= l.nBlockPrioritySize || e.priority < (COIN * 144 / 250) as real)
  {
  }

  /** A pool of two transactions and a world for which the code follows such a pointer. */
  method FollowsPointer() returns (ok: bool)
    ensures !ok
  {
    hide *;
    var pool, disk := [P, T], {10};
    FollowedExample();
    RoomForAll(pool, disk);
    AcceptingDisk(disk);
    RoomyIs(pool);
    var limits := Limits(0, 0, 0, 0.0, Latest(pool), false, 0);
    var l, vtx, nBlockSize, nBlockSigOps, nFees;
    ok, l, vtx, nBlockSize, nBlockSigOps, nFees := CreateNewBlock(pool, Accepting(disk), limits, MAX_BLOCK_SIZE, 0, 0);
  }
}
