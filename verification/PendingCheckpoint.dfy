/** What becomes of a checkpoint that a node receives: it waits for its block, is taken, or is
    dropped, and nothing else moves the checkpoint of the node. */
module PendingCheckpoint {
  import opened Basics
  import opened BlockTree
  import opened SyncCheckpoint

  /** The block is in the main chain or gets there, and the checkpoint is written. */
  predicate Succeeds(e: Outcome) {
    (e.inMainChain || (e.readOk && e.setBestOk)) && e.writeOk
  }

  /** The main chain cannot be moved to the block. */
  predicate Stuck(e: Outcome) {
    !e.inMainChain && e.readOk && !e.setBestOk
  }

  /** The step replaces, takes or drops the pending checkpoint. */
  ghost predicate Decides(s: Node, ev: Event) {
    match ev
    case Receive(hash, m, signed, e) => signed && (hash !in s.index || (Advances(s, hash) && Succeeds(e)))
    case Pending(e) => s.pending in s.index && (!Advances(s, s.pending) || Succeeds(e))
    case Add(b) => false
  }

  /** The checkpoint that a step makes the one of the node. */
  ghost predicate Takes(s: Node, ev: Event, hash: Uint256, m: Message) {
    match ev
    case Receive(h, m', signed, e) => signed && h == hash && m' == m && Advances(s, hash) && Succeeds(e)
    case Pending(e) => s.pending != 0 && s.pending == hash && s.pendingMessage == m && Advances(s, hash) && Succeeds(e)
    case Add(b) => false
  }

  // ----- Taking a checkpoint

  /** A checkpoint is taken with its message, and then none is pending. */
  lemma TakenAtOnce(s: Node, ev: Event, t: Node, hash: Uint256, m: Message)
    requires Step(s, ev, t) && Takes(s, ev, hash, m)
    ensures t == s.(sync := hash, message := m, pending := 0, pendingMessage := 0)
  {
    AdvanceIsNoConflict(s, hash);
  }

  /** Without that, the node keeps its checkpoint and message. */
  lemma KeptOtherwise(s: Node, ev: Event, t: Node)
    requires Step(s, ev, t) && forall hash, m :: !Takes(s, ev, hash, m)
    ensures t.sync == s.sync && t.message == s.message
  {
    if ev.Receive? {
      assert !Takes(s, ev, ev.hash, ev.message);
    } else if ev.Pending? {
      assert !Takes(s, ev, s.pending, s.pendingMessage);
    }
  }

  // ----- Waiting for the block

  /** A signed checkpoint whose block is not in the index becomes the pending one. */
  lemma BecomesPending(s: Node, ev: Event, t: Node)
    requires Step(s, ev, t) && ev.Receive? && ev.signed && ev.hash !in s.index
    ensures t == s.(pending := ev.hash, pendingMessage := ev.message)
  {
  }

  /** A pending checkpoint waits, with its message, until a step decides it. */
  lemma StaysPending(s: Node, ev: Event, t: Node)
    requires Step(s, ev, t) && s.pending != 0 && !Decides(s, ev)
    ensures t.pending == s.pending && t.pendingMessage == s.pendingMessage
  {
  }

  /** A pending checkpoint whose block leads elsewhere is dropped. */
  lemma DroppedPending(s: Node, ev: Event, t: Node)
    requires Step(s, ev, t) && ev.Pending? && s.pending != 0 && s.pending in s.index && !Advances(s, s.pending)
    ensures t.sync == s.sync && t.pending == 0 && t.pendingMessage == 0
    ensures t.invalid == if Conflicts(s, s.pending) then s.pending else s.invalid
  {
  }

  /** A checkpoint is marked invalid just when its block is on another branch, or could not be made
      the best one. */
  lemma InvalidExactly(s: Node, ev: Event, t: Node, hash: Uint256)
    requires Step(s, ev, t) && s.invalid != hash && hash != 0
    ensures t.invalid == hash <==>
              match ev
              case Receive(h, m, signed, e) => signed && h == hash && (Conflicts(s, h) || (Advances(s, h) && Stuck(e)))
              case Pending(e) => s.pending == hash && (Conflicts(s, hash) || (Advances(s, hash) && Stuck(e)))
              case Add(b) => false
  {
  }

  /** Over a run: received with its block unknown, it is pending until a step decides it. */
  lemma {:induction false} PendingOverRun(states: seq<Node>, events: seq<Event>, i: nat, j: nat)
    requires Run(states, events) && i < j < |states|
    requires events[i].Receive? && events[i].signed && events[i].hash != 0 && events[i].hash !in states[i].index
    requires forall k | i < k < j :: !Decides(states[k], events[k])
    ensures states[j].pending == events[i].hash && states[j].pendingMessage == events[i].message
    decreases j
  {
    hide Step, Decides;
    if j == i + 1 {
      BecomesPending(states[i], events[i], states[j]);
    } else {
      PendingOverRun(states, events, i, j - 1);
      StaysPending(states[j - 1], events[j - 1], states[j]);
    }
  }

  /** And when its block has come and it is an advance, the next look at it takes it. */
  lemma PendingIsTaken(states: seq<Node>, events: seq<Event>, i: nat, j: nat)
    requires Run(states, events) && i < j < |events|
    requires events[i].Receive? && events[i].signed && events[i].hash != 0 && events[i].hash !in states[i].index
    requires forall k | i < k < j :: !Decides(states[k], events[k])
    requires events[j].Pending? && Advances(states[j], events[i].hash) && Succeeds(events[j].outcome)
    ensures states[j + 1] == states[j].(sync := events[i].hash, message := events[i].message, pending := 0, pendingMessage := 0)
  {
    hide Step, Decides, Advances;
    PendingOverRun(states, events, i, j);
    TakenAtOnce(states[j], events[j], states[j + 1], events[i].hash, events[i].message);
  }

  // ----- Where the checkpoints come from

  /** Before step `j` the node received this checkpoint, signed. */
  ghost predicate Received(events: seq<Event>, j: nat, hash: Uint256, m: Message)
    requires j <= |events|
  {
    exists i :: 0 <= i < j && events[i].Receive? && events[i].signed && events[i].hash == hash && events[i].message == m
  }

  /** The checkpoint and the pending one are those of the start, or none, or were received. */
  ghost predicate FromMessages(s0: Node, events: seq<Event>, j: nat, s: Node)
    requires j <= |events|
  {
    && ((s.sync == s0.sync && s.message == s0.message)
        || (s.sync == s0.pending && s.message == s0.pendingMessage)
        || Received(events, j, s.sync, s.message))
    && (s.pending == 0
        || (s.pending == s0.pending && s.pendingMessage == s0.pendingMessage)
        || Received(events, j, s.pending, s.pendingMessage))
  }

  lemma ReceivedGrows(events: seq<Event>, j: nat, hash: Uint256, m: Message)
    requires j < |events| && Received(events, j, hash, m)
    ensures Received(events, j + 1, hash, m)
  {
    var i :| 0 <= i < j && events[i].Receive? && events[i].signed && events[i].hash == hash && events[i].message == m;
  }

  lemma StepFromMessages(s0: Node, events: seq<Event>, j: nat, s: Node, t: Node)
    requires j < |events| && FromMessages(s0, events, j, s) && Step(s, events[j], t)
    ensures FromMessages(s0, events, j + 1, t)
  {
    if Received(events, j, s.sync, s.message) {
      ReceivedGrows(events, j, s.sync, s.message);
    }
    if Received(events, j, s.pending, s.pendingMessage) {
      ReceivedGrows(events, j, s.pending, s.pendingMessage);
    }
    var ev := events[j];
    if ev.Receive? && ev.signed {
      assert Received(events, j + 1, ev.hash, ev.message);
    }
    hide Advances, Conflicts, Received;
  }

  /** In every run a node has only checkpoints that it started with or received signed, each with
      its own message. */
  lemma {:induction false} CheckpointsAreSigned(states: seq<Node>, events: seq<Event>, j: nat)
    requires Run(states, events) && j < |states|
    ensures FromMessages(states[0], events, j, states[j])
    decreases j
  {
    hide Step, FromMessages;
    if j == 0 {
      StartsFromMessages(states[0], events);
    } else {
      CheckpointsAreSigned(states, events, j - 1);
      StepFromMessages(states[0], events, j - 1, states[j - 1], states[j]);
    }
  }

  lemma StartsFromMessages(s0: Node, events: seq<Event>)
    ensures FromMessages(s0, events, 0, s0)
  {
  }

  // ----- What the check admits

  /** A block that is not in the index passes just when it descends from the checkpoint. */
  lemma NewBlockPasses(s: Node, b: Index)
    requires Inv(s) && b.pprev.Block? && InIndex(b.pprev, s.index) && b.hash !in s.index
    ensures Agrees(s, b.hash, b.pprev) <==> IsAncestor(s.index[s.sync], b)
  {
    var sync := s.index[s.sync];
    if IsAncestor(sync, b.pprev) {
      AncestorHeight(sync, b.pprev);
    }
  }

  /** A block of the index passes just when it is below the checkpoint or descends from it. */
  lemma KnownBlockPasses(s: Node, b: Index)
    requires Inv(s) && b.pprev.Block? && InIndex(b, s.index)
    ensures Agrees(s, b.hash, b.pprev) <==> Height(b) < Height(s.index[s.sync]) || IsAncestor(s.index[s.sync], b)
  {
    var sync := s.index[s.sync];
    if IsAncestor(sync, b) {
      AncestorHeight(sync, b);
    }
    if IsAncestor(sync, b.pprev) {
      AncestorHeight(sync, b.pprev);
    }
  }
}
