/** Synchronized checkpoints: which received checkpoints a node takes, and which blocks it then
    refuses. */
module SyncCheckpoint {
  import opened Basics
  import opened BlockTree

  /** A signed message; zero stands for none. */
  type Message = nat

  /** What the node knows. */
  datatype Node = Node(index: map<Uint256, Index>, sync: Uint256, pending: Uint256, invalid: Uint256,
                       message: Message, pendingMessage: Message)

  /** Outcomes outside the model: whether the checkpoint is in the main chain, and whether
      reading the block, moving the main chain to it and writing the checkpoint succeed. */
  datatype Outcome = Outcome(inMainChain: bool, readOk: bool, setBestOk: bool, writeOk: bool)

  /** The checkpoint leads to a higher descendant of the current one. */
  ghost predicate Advances(s: Node, hash: Uint256) {
    && s.sync in s.index && hash in s.index
    && Height(s.index[s.sync]) < Height(s.index[hash]) && IsAncestor(s.index[s.sync], s.index[hash])
  }

  /** The two checkpoints are on different branches. */
  ghost predicate Conflicts(s: Node, hash: Uint256) {
    && s.sync in s.index && hash in s.index
    && !IsAncestor(s.index[s.sync], s.index[hash]) && !IsAncestor(s.index[hash], s.index[s.sync])
  }

  ghost function Validated(s: Node, hash: Uint256): Node {
    if Conflicts(s, hash) then s.(invalid := hash) else s
  }

  /** The node after it looked at its pending checkpoint, and whether it took it. */
  ghost function Accepted(s: Node, e: Outcome): (Node, bool) {
    if s.pending == 0 || s.pending !in s.index then (s, false)
    else if !Advances(s, s.pending) then (Validated(s, s.pending).(pending := 0, pendingMessage := 0), false)
    else if !e.inMainChain && !e.readOk then (s, false)
    else if !e.inMainChain && !e.setBestOk then (s.(invalid := s.pending), false)
    else if !e.writeOk then (s, false)
    else (s.(sync := s.pending, pending := 0, message := s.pendingMessage, pendingMessage := 0), true)
  }

  /** The node after it received a checkpoint message, and whether it took it. */
  ghost function Processed(s: Node, hash: Uint256, m: Message, signed: bool, e: Outcome): (Node, bool) {
    if !signed then (s, false)
    else if hash !in s.index then (s.(pending := hash, pendingMessage := m), false)
    else if !Advances(s, hash) then (Validated(s, hash), false)
    else if !e.inMainChain && !e.readOk then (s, false)
    else if !e.inMainChain && !e.setBestOk then (s.(invalid := hash), false)
    else if !e.writeOk then (s, false)
    else (s.(sync := hash, message := m, pending := 0, pendingMessage := 0), true)
  }

  /** Whether a block on top of `prev` agrees with the checkpoint. */
  ghost predicate Agrees(s: Node, hash: Uint256, prev: Index)
    requires s.sync in s.index
  {
    var sync, height := s.index[s.sync], Height(prev) + 1;
    if height > Height(sync) then IsAncestor(sync, prev)
    else if height == Height(sync) then hash == s.sync
    else hash in s.index
  }

  ghost predicate Inv(s: Node) {
    TreeOk(s.index) && s.sync in s.index
  }

  /** Traces back to a height; the walk never falls off a well-formed tree. */
  method TraceBack(from: Index, nHeight: nat) returns (ok: bool, p: Pointer)
    requires nHeight <= Height(from)
    ensures ok && p == Back(from, Height(from) - nHeight) && p.Block?
  {
    p := from;
    ghost var n := 0;
    while Height(p) > nHeight
      invariant n <= Height(from) - nHeight && p.Block? && p == Back(from, n) && Height(p) == Height(from) - n
      decreases p
    {
      BackBack(from, n, 1);
      BackHeight(from, n + 1);
      assert Back(p, 1) == p.pprev by {
        BackOne(p);
      }
      n := n + 1;
      var pprev := p.pprev;
      if pprev.Null? {
        return false, pprev;
      }
      p := pprev;
    }
    ok := true;
  }

  lemma BackOne(p: Index)
    ensures Back(p, 1) == p.pprev
  {
    if p.pprev.Block? {
      assert Back(p.pprev, 0) == p.pprev;
    }
  }

  class Checkpoints {
    var mapBlockIndex: map<Uint256, Index>
    var hashSyncCheckpoint: Uint256
    var hashPendingCheckpoint: Uint256
    var hashInvalidCheckpoint: Uint256
    var checkpointMessage: Message
    var checkpointMessagePending: Message

    function Now(): Node
      reads this
    {
      Node(mapBlockIndex, hashSyncCheckpoint, hashPendingCheckpoint, hashInvalidCheckpoint,
           checkpointMessage, checkpointMessagePending)
    }

    method ValidateSyncCheckpoint(hashCheckpoint: Uint256) returns (ok: bool, structureFailure: bool)
      requires TreeOk(mapBlockIndex)
      modifies this`hashInvalidCheckpoint
      ensures ok <==> Advances(old(Now()), hashCheckpoint)
      ensures Now() == Validated(old(Now()), hashCheckpoint)
      ensures !structureFailure
    {
      ok, structureFailure := false, false;
      if hashSyncCheckpoint !in mapBlockIndex || hashCheckpoint !in mapBlockIndex {
        return;
      }
      var pindexSync, pindexRecv := mapBlockIndex[hashSyncCheckpoint], mapBlockIndex[hashCheckpoint];
      if Height(pindexRecv) <= Height(pindexSync) {
        var traced, p := TraceBack(pindexSync, Height(pindexRecv));
        if !traced {
          return false, true;
        }
        Same(mapBlockIndex, pindexRecv, pindexSync);
        if p.hash != hashCheckpoint {
          hashInvalidCheckpoint := hashCheckpoint;
        }
        return;
      }
      var traced, p := TraceBack(pindexRecv, Height(pindexSync));
      if !traced {
        return false, true;
      }
      Same(mapBlockIndex, pindexSync, pindexRecv);
      if p.hash != hashSyncCheckpoint {
        hashInvalidCheckpoint := hashCheckpoint;
        return;
      }
      ok := true;
    }

    method AcceptPendingSyncCheckpoint(e: Outcome) returns (ok: bool)
      requires TreeOk(mapBlockIndex)
      modifies this`hashSyncCheckpoint, this`hashPendingCheckpoint, this`hashInvalidCheckpoint
      modifies this`checkpointMessage, this`checkpointMessagePending
      ensures (Now(), ok) == Accepted(old(Now()), e)
    {
      hide Advances, Conflicts;
      if hashPendingCheckpoint != 0 && hashPendingCheckpoint in mapBlockIndex {
        var valid, _ := ValidateSyncCheckpoint(hashPendingCheckpoint);
        if !valid {
          hashPendingCheckpoint := 0;
          checkpointMessagePending := 0;
          return false;
        }
        AdvanceIsNoConflict(old(Now()), hashPendingCheckpoint);
        if !e.inMainChain {
          if !e.readOk {
            return false;
          }
          if !e.setBestOk {
            hashInvalidCheckpoint := hashPendingCheckpoint;
            return false;
          }
        }
        if !e.writeOk {
          return false;
        }
        hashSyncCheckpoint := hashPendingCheckpoint;
        hashPendingCheckpoint := 0;
        checkpointMessage := checkpointMessagePending;
        checkpointMessagePending := 0;
        return true;
      }
      return false;
    }

    method ProcessSyncCheckpoint(hashCheckpoint: Uint256, message: Message, signed: bool, e: Outcome) returns (ok: bool)
      requires TreeOk(mapBlockIndex)
      modifies this`hashSyncCheckpoint, this`hashPendingCheckpoint, this`hashInvalidCheckpoint
      modifies this`checkpointMessage, this`checkpointMessagePending
      ensures (Now(), ok) == Processed(old(Now()), hashCheckpoint, message, signed, e)
    {
      hide Advances, Conflicts;
      if !signed {
        return false;
      }
      if hashCheckpoint !in mapBlockIndex {
        hashPendingCheckpoint := hashCheckpoint;
        checkpointMessagePending := message;
        return false;
      }
      var valid, _ := ValidateSyncCheckpoint(hashCheckpoint);
      if !valid {
        return false;
      }
      AdvanceIsNoConflict(old(Now()), hashCheckpoint);
      if !e.inMainChain {
        if !e.readOk {
          return false;
        }
        if !e.setBestOk {
          hashInvalidCheckpoint := hashCheckpoint;
          return false;
        }
      }
      if !e.writeOk {
        return false;
      }
      hashSyncCheckpoint := hashCheckpoint;
      checkpointMessage := message;
      hashPendingCheckpoint := 0;
      checkpointMessagePending := 0;
      return true;
    }

    method CheckSync(fTestNet: bool, hashBlock: Uint256, pindexPrev: Index) returns (ok: bool, structureFailure: bool)
      requires Inv(Now()) && InIndex(pindexPrev, mapBlockIndex)
      ensures ok <==> fTestNet || Agrees(Now(), hashBlock, pindexPrev)
      ensures !structureFailure
    {
      structureFailure := false;
      if fTestNet {
        return true, false;
      }
      var nHeight := Height(pindexPrev) + 1;
      var pindexSync := mapBlockIndex[hashSyncCheckpoint];
      if nHeight > Height(pindexSync) {
        var traced, p := TraceBack(pindexPrev, Height(pindexSync));
        if !traced {
          return false, true;
        }
        Same(mapBlockIndex, pindexSync, pindexPrev);
        if Height(p) < Height(pindexSync) || p.hash != hashSyncCheckpoint {
          return false, false;
        }
      }
      if nHeight == Height(pindexSync) && hashBlock != hashSyncCheckpoint {
        return false, false;
      }
      if nHeight < Height(pindexSync) && hashBlock !in mapBlockIndex {
        return false, false;
      }
      ok := true;
    }
  }

  /** The block traced back to has the hash just when it is the ancestor. */
  lemma Same(index: map<Uint256, Index>, a: Index, b: Index)
    requires TreeOk(index) && a.hash in index && index[a.hash] == a && InIndex(b, index) && Height(a) <= Height(b)
    ensures var p := Back(b, Height(b) - Height(a));
            p.Block? && Height(p) == Height(a) && (p.hash == a.hash <==> IsAncestor(a, b))
    ensures IsAncestor(b, a) ==> a == b
  {
    BackHeight(b, Height(b) - Height(a));
    AncestorAt(a, b);
    InIndexBack(b, index, Height(b) - Height(a));
    if IsAncestor(b, a) {
      AncestorHeight(b, a);
    }
  }

  lemma AdvanceIsNoConflict(s: Node, hash: Uint256)
    ensures Advances(s, hash) ==> Validated(s, hash) == s
  {
  }

  // ----- Runs

  /** One step of the node: a message comes in, the pending checkpoint is looked at, or a block is
      added to the index. */
  datatype Event =
    | Receive(hash: Uint256, message: Message, signed: bool, outcome: Outcome)
    | Pending(outcome: Outcome)
    | Add(block: Index)

  ghost predicate Step(s: Node, ev: Event, t: Node) {
    match ev
    case Receive(hash, m, signed, e) => t == Processed(s, hash, m, signed, e).0
    case Pending(e) => t == Accepted(s, e).0
    case Add(b) =>
      && b.hash !in s.index
      && (b.pprev.Block? ==> b.pprev.hash in s.index && s.index[b.pprev.hash] == b.pprev)
      && t == s.(index := s.index[b.hash := b])
  }

  /** `t` knows what `s` knows, and its checkpoint is that of `s` or a higher descendant of it. */
  ghost predicate Follows(s: Node, t: Node) {
    && Inv(s) && Inv(t)
    && (forall h | h in s.index :: h in t.index && t.index[h] == s.index[h])
    && IsAncestor(s.index[s.sync], t.index[t.sync])
    && (s.sync != t.sync ==> Height(s.index[s.sync]) < Height(t.index[t.sync]))
  }

  lemma StepFollows(s: Node, ev: Event, t: Node)
    requires Inv(s) && Step(s, ev, t)
    ensures Follows(s, t)
  {
    match ev
    case Receive(hash, m, signed, e) =>
    case Pending(e) =>
    case Add(b) => AddBlockOk(s.index, b);
  }

  lemma FollowsTrans(s: Node, t: Node, u: Node)
    requires Follows(s, t) && Follows(t, u)
    ensures Follows(s, u)
  {
    AncestorTrans(s.index[s.sync], t.index[t.sync], u.index[u.sync]);
    AncestorHeight(s.index[s.sync], t.index[t.sync]);
    AncestorHeight(t.index[t.sync], u.index[u.sync]);
  }

  ghost predicate Run(states: seq<Node>, events: seq<Event>) {
    && |states| == |events| + 1 && Inv(states[0])
    && forall i | 0 <= i < |events| :: Step(states[i], events[i], states[i + 1])
  }

  /** Over any run, the checkpoints are a chain: each is the one before or a higher descendant. */
  lemma {:induction false} RunFollows(states: seq<Node>, events: seq<Event>, i: nat, j: nat)
    requires Run(states, events) && i <= j < |states|
    ensures Follows(states[i], states[j]) && Inv(states[j])
    decreases j
  {
    hide Step, Follows;
    if j == 0 {
      FollowsSelf(states[0]);
    } else {
      RunFollows(states, events, if i < j then i else j - 1, j - 1);
      if i < j {
        StepOfRun(states, events, j - 1);
        FollowsTrans(states[i], states[j - 1], states[j]);
      } else {
        StepOfRun(states, events, j - 1);
        FollowsSelf(states[j]);
      }
    }
  }

  lemma FollowsSelf(s: Node)
    ensures Inv(s) <==> Follows(s, s)
  {
  }

  lemma StepOfRun(states: seq<Node>, events: seq<Event>, i: nat)
    requires Run(states, events) && i < |events|
    ensures Inv(states[i]) ==> Follows(states[i], states[i + 1]) && Inv(states[i + 1])
  {
    if Inv(states[i]) {
      StepFollows(states[i], events[i], states[i + 1]);
    }
  }

  // ----- What the check gives

  /** A block above the checkpoint that passes the check descends from the checkpoint. */
  lemma PassedDescends(s: Node, b: Index)
    requires Inv(s) && b.pprev.Block? && Agrees(s, b.hash, b.pprev) && Height(b) >= Height(s.index[s.sync])
    requires b.hash == s.sync ==> s.index[s.sync] == b
    ensures IsAncestor(s.index[s.sync], b)
  {
  }

  /** A block that is refused and does not enter the index is refused after every advance. */
  lemma RefusedStaysRefused(s: Node, t: Node, hash: Uint256, prev: Index)
    requires Follows(s, t) && !Agrees(s, hash, prev) && hash !in t.index
    ensures !Agrees(t, hash, prev)
  {
    AncestorHeight(s.index[s.sync], t.index[t.sync]);
    if Height(prev) + 1 > Height(t.index[t.sync]) && IsAncestor(t.index[t.sync], prev) {
      AncestorTrans(s.index[s.sync], t.index[t.sync], prev);
    }
  }

  lemma RefusedOverRun(states: seq<Node>, events: seq<Event>, i: nat, j: nat, hash: Uint256, prev: Index)
    requires Run(states, events) && i <= j < |states|
    requires states[i].sync in states[i].index && !Agrees(states[i], hash, prev) && hash !in states[j].index
    ensures states[j].sync in states[j].index && !Agrees(states[j], hash, prev)
  {
    hide Agrees;
    RunFollows(states, events, i, j);
    RefusedStaysRefused(states[i], states[j], hash, prev);
  }
}
