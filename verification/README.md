# A verified model of the node's core algorithms

This project models, in Dafny, the parts of a Bitcoin/PPCoin-style node that carry hard invariants,
and proves what the code promises about them. `dafny verify dfyconfig.toml` checks all of it.

| part | files |
|---|---|
| the address manager, its self-check and its serialized form | `AddrTypes`, `AddrTables`, `AddrMan`, `AddrRules`, `AddrCheck`, `AddrImage`, `AddrRestore`, `AddrManSerial` |
| a few definitions for all | `Basics`, `Ordered` |
| the check queue and its protocol | `CheckQueue`, `CheckQueueProtocol`, `WakeUps` |
| Merkle trees, block locators, transaction replacement | `Merkle`, `BlockTree`, `Locator`, `Replacement` |
| the Keccak and BLAKE hashes | `Words`, `Bytes`, `Keccak`, `KeccakF`, `Interleave`, `KeccakNarrow`, `KeccakSponge`, `KeccakNarrowSponge`, `Blake`, `HashStandards` |
| stake modifiers and synchronized checkpoints | `StakeModifier`, `ModifierRules`, `SyncCheckpoint`, `PendingCheckpoint` |
| block assembly | `BlockSpec`, `BlockRules`, `StaleOrphans`, `PriorityQueue`, `Miner` |
| big numbers, base58, locked pages | `Radix`, `Bignum`, `Base58`, `LockedPages` |
| division with remainder, powers of two | `Modular` |

## How the code is modelled

* An object that the code updates is a class with the same fields (`CAddrman`, `CCheckQueue`, `CBlock`,
  `CBlockLocator`, `SphKeccak`, `SphBlake`, `Checkpoints`, `CBigNum`, `CBase58Data`, `LockedPageManager`). Loops of
  the code are loops here, proved against a function or a predicate on values; the laws about those are lemmas.
* Random numbers are nondeterministic choices, or parameters where a result depends on them (the draws of
  `ShrinkNew`, `SelectTried` and `Add_`), so every claim holds for all of them. The clock, bucket
  hashing, block and pair hashes and the compression function of BLAKE are parameters.
* The check queue is a transition system: one atomic step for each stretch of code that holds the mutex and
  one for each evaluation outside it. The runs are all interleavings of one master and any number of workers, with
  spurious wake-ups.
* Big numbers are integers, and the MPI format is written out; its length is taken to be a signed 32-bit number.
* Machine words of the hashes are sequences of bits, the least significant first. Counters that wrap around are
  written out modulo the word size.
* The 25 lanes of Keccak are a sequence the rounds reassign; lane (x, y) has index 5x + y.
* A branch of the block tree is a chain of `pprev` links (`BlockTree.Pointer`) or, for stake modifiers, the sequence
  of its blocks, the genesis block first. A node's main chain is the set of the hashes for which
  `IsInMainChain` holds.

## Main results

* **Address manager.** `AddrTables.Consistent` holds of a new manager and is kept by every operation, under
  every random choice, and no assertion of the code can fire. The draws determine which entry makes room in a full
  bucket. The tried entries of one address range are never in more than four buckets, and its announcements in
  no more than 32 new ones. A consistent manager passes `Check_` just when its times are positive. Writing any consistent manager and
  reading it back gives the same one up to the ids of its entries: nothing is lost, and all buckets, counts and the
  key are the same.
* **Check queue.** In every interleaving, `Wait` returns true just when all checks added since it last returned
  evaluate to true. No wake-up is lost, a waiting master always has some step to wait for, and such steps run out: in
  every run they are no more than what threads entering the loop and checks being added account for, however
  many spurious wake-ups there are. Additions wake a sleeping worker, or all of them, and a woken one gets checks
  while there are any; the sleeping master is woken just when all is done. Between waits the assertions of the control object hold.
* **Merkle.** The flat array is the tree, every branch climbs to the root, and a branch that climbs to the root from
  another leaf gives a collision. The root tells two lists apart, up to a collision that their branches show, just when
  their lengths are equal: for any hash and any two different lengths there are two lists with one root.
* **Locators.** A locator finds the fork itself when it is at most 11 blocks back, and otherwise a block less
  than twice as far back. The independent replay of the steps gives the true distance just when some offset of the
  locator lies between the fork and the genesis block; otherwise it is too large, as for a chain of 13 blocks of which the
  other node has only the first.
* **Keccak.** The whole streaming hash, with buffering, lane complement, renamed variables that the macros assign in
  place (all seven unroll factors) and padding, gives the digest of the sponge of sections 3.2, 3.3 and 4 of FIPS 202
  with the padding pad10*1. So does the hash on 32-bit words, in the interleaved form and in the plain one, and
  `INTERLEAVE` and `UNINTERLEAVE` are inverse to each other.
* **BLAKE.** For every way of splitting a message into updates the digest is that of sections 2.1.3 and 2.2.3 of the
  BLAKE submission: each block is compressed under the number of message bits so far, or zero.
* **Stake modifiers.** The scan with its early break is the global selection rule, by which a proof-of-work block comes
  before an eligible proof-of-stake block only if its hash is lower 2^32 times over. The rounds never run out of
  blocks, the branch determines the modifier, each interval has at most one generating block if block times do not go back, and
  a kernel keeps its modifier when the chain grows.
* **Synchronized checkpoints.** Over every run each checkpoint is the one before or a higher descendant of it,
  and a refused block stays refused. A signed checkpoint whose block is unknown waits until a step decides it, and is taken with
  its own message when the block comes and is an advance; a node has only checkpoints that it received signed or started with.
* **Block assembly.** The heap, the orphans and their lists do what a simple rule says: in each turn, of the
  transactions whose parents are in the block, one that no other beats under the comparer in force is taken, and it enters
  just when it passes all checks on top of the block so far. Without ties that leaves one block. It holds each transaction
  once, after those it spends, within the limits, with the right totals; its first part holds the transactions of high
  priority, the highest first, and the rest goes by fee. What is left out was refused in its
  turn or spends something left out. The code may follow a pointer to an orphan that it has dropped. For a pool
  that fits a block, whether some priorities, fees and checks make it do so is a matter of the pool and the disk alone: just
  when a transaction with such a pointer in its list leads back to the disk. Two transactions are enough for it.
* **Base58, compact numbers, locked pages.** Encoding is a bijection onto the strings over the alphabet, and the
  decoder accepts just those, with blanks around them; the code comes out right just for bytes that are fewer than 2^31 - 5 or
  all zero. The compact form loses only what does not fit, is idempotent and keeps the order. The histogram of
  locked pages is the number of live ranges on each page.

## Where code and comments part

* `ShrinkNew` and `SelectTried` both say that they pick the oldest of some entries. For `ShrinkNew` it is proved, for
  the four positions it is given. `SelectTried` records the position an entry was drawn from, after it was swapped
  elsewhere: the position holds that entry just when the draw was zero (`BOP-base/src/addrman.cpp:135-146`).
* The comment in `checkqueue.h` about `fQuit` describes a shutdown; nothing sets that flag.

## Model

| member | source | states |
|---|---|---|
| `AddrMan.CAddrman.constructor` | BOP-base/src/addrman.h:382-390 | a new manager is consistent and empty |
| `AddrMan.CAddrman.SwapRandom` | BOP-base/src/addrman.cpp:105-123 | exactly two positions of vRandom trade places and the positions in the entries follow |
| `AddrMan.CAddrman.EraseEntry` | BOP-base/src/addrman.cpp:163-166 | the entry, its address and its place in vRandom go together; vRandom and the entries stay inverse |
| `AddrMan.CAddrman.Release` | BOP-base/src/addrman.cpp:161-169 | one reference goes; the entry goes with its last one; all tables stay consistent |
| `AddrMan.CAddrman.ShrinkNew` | BOP-base/src/addrman.cpp:149-201 | one entry leaves the bucket: the first terrible one, else the least recently seen at the four given positions; the result says which, and consistency is kept |
| `AddrMan.FindTerrible` | BOP-base/src/addrman.cpp:154-172 | the least id of the bucket that is terrible, or none is |
| `AddrMan.PickOldest` | BOP-base/src/addrman.cpp:174-188 | for any four positions, the entry with the least time there, the first one if several have it |
| `AddrMan.VictimUnique` | BOP-base/src/addrman.cpp:149-201 | the draws leave one entry to take out |
| `AddrMan.CAddrman.SelectTried` | BOP-base/src/addrman.cpp:125-147 | the position from which the first least recently successful of the shuffled entries was drawn, in a bucket shuffled as the draws say |
| `AddrMan.SelectsOldest` | BOP-base/src/addrman.cpp:131-146 | that position holds that entry just when its draw was zero |
| `AddrMan.SelectsYounger` | BOP-base/src/addrman.cpp:131-146 | two entries and draws for which the younger one is selected |
| `AddrMan.CAddrman.LeaveNewBuckets` | BOP-base/src/addrman.cpp:207-215 | the id leaves every new bucket and its count ends at zero |
| `AddrMan.CAddrman.MakeTried` | BOP-base/src/addrman.cpp:203-259 | the entry moves to the tried bucket of its hash; if that is full another one goes back to a new bucket with room, its own or the origin |
| `AddrMan.CAddrman.FindNewBucket` | BOP-base/src/addrman.cpp:288-300 | a new bucket holding the id, and -1 only when there is none |
| `AddrMan.CAddrman.Good` | BOP-base/src/addrman.cpp:261-310 | the whole effect of a success on entries and buckets; consistency, times and the number of entries are kept |
| `AddrMan.CAddrman.InsertNew` | BOP-base/src/addrman.cpp:358-366 | the entry is in one more new bucket, after the entry that the draws say made room if it was full |
| `AddrMan.CAddrman.Create` | BOP-base/src/addrman.cpp:93-103 | a fresh id at the end of vRandom, entered in both maps |
| `AddrMan.CAddrman.Add` | BOP-base/src/addrman.cpp:312-368 | the whole effect of an announcement, as the draws determine it; consistency and times are kept |
| `AddrMan.CAddrman.Refresh` | BOP-base/src/addrman.cpp:321-349 | the entry is updated as announced; it goes on just with news, untried, below the reference limit and with a draw of zero |
| `AddrMan.CAddrman.GoesOn` | BOP-base/src/addrman.cpp:333-349 | it goes on just with news, untried, below the reference limit, and for one random number in as many as the factor says |
| `AddrRules.FactorTable` | BOP-base/src/addrman.cpp:345-349 | the factor is 1, 2, 4 or 8 |
| `AddrRules.RefreshedExactly` | BOP-base/src/addrman.cpp:321-334 | when an announcement renews the time, to what, and that it never goes back; when it still brings news afterwards; services are added and nothing else changes |
| `AddrRules.WrappedTime` | BOP-base/src/addrman.cpp:326 | a time that does not fit the 32-bit field wraps around |
| `AddrMan.CAddrman.CreateNew` | BOP-base/src/addrman.cpp:350-356 | a first announcement enters with penalised time and no bucket yet |
| `AddrMan.CAddrman.Attempt` | BOP-base/src/addrman.cpp:370-387 | only the attempt statistics of the found entry change |
| `AddrMan.CAddrman.Connected` | BOP-base/src/addrman.cpp:509-527 | the time is renewed just when it is more than 20 minutes old |
| `AddrMan.CAddrman.GetAddr` | BOP-base/src/addrman.cpp:493-507 | the right number of pairwise different known addresses; vRandom is only permuted |
| `AddrMan.CAddrman.FindService` | BOP-base/src/addrman.cpp:80-91 | of a consistent manager: the id of the one entry with the address and port, or none has them |
| `AddrRules.TriedGroup` | BOP-base/src/addrman.cpp:9-21 | for any key, the addresses of one range have at most four tried buckets |
| `AddrRules.TriedRange` | BOP-base/src/addrman.h:91-114 | in a consistent manager the tried entries of one range are in at most four buckets |
| `AddrRules.TriedSpread` | BOP-base/src/addrman.cpp:9-21 | a hash for which the ports of one address give four, and the key moves them |
| `AddrRules.NewGroup` | BOP-base/src/addrman.cpp:23-36 | for any key, what sources of one range announce has at most 32 new buckets |
| `AddrRules.NewByRanges` | BOP-base/src/addrman.cpp:23-36 | a new bucket depends on nothing but the key and the ranges of address and source |
| `AddrRules.NewSpread` | BOP-base/src/addrman.cpp:23-36 | a hash for which addresses of 32 ranges from one source give 32, and the key moves them |
| `AddrRules.KeyTells` | BOP-base/src/addrman.cpp:12-13 | the key of a service is that of no other address and port |
| `AddrRules.TerribleExactly` | BOP-base/src/addrman.cpp:38-56 | when an entry is given up, in seconds and attempts |
| `AddrRules.ReachedIsKept` | BOP-base/src/addrman.cpp:261-285 | an entry that was reached is given up just when 30 days have gone by; of it only statistics and time change |
| `AddrRules.InVain` | BOP-base/src/addrman.cpp:370-387 | after a success and a week it is given up just after ten attempts in vain, a minute after the last |
| `AddrTables.ReleaseKeeps` | BOP-base/src/addrman.cpp:161-169 | removing the last reference of an entry keeps all tables consistent |
| `AddrTables.SwappedKeeps` | BOP-base/src/addrman.cpp:230-258 | trading an entry for one of a full tried bucket keeps both bucket tables consistent |
| `AddrTables.RoomAfterErase` | BOP-base/src/addrman.cpp:245-252 | the bucket that the entry left has room for the one sent back |
| `AddrTables.RandomCount` | BOP-base/src/addrman.cpp:439 | vRandom is as long as there are entries |
| `AddrTables.ConsistentCount` | BOP-base/src/addrman.cpp:439 | vRandom is as long as the new and tried entries together |
| `AddrCheck.Check` | BOP-base/src/addrman.cpp:434-490 | the self-check passes just when counts, entries, tried and new buckets agree |
| `AddrCheck.CheckTried` | BOP-base/src/addrman.cpp:466-474 | the pass over the tried buckets succeeds just when each tried id is in exactly one place and nothing else is |
| `AddrCheck.CheckNew` | BOP-base/src/addrman.cpp:476-487 | the pass over the new buckets succeeds just when reference counts are bucket counts |
| `AddrCheck.ConsistentPasses` | BOP-base/src/addrman.cpp:434-490 | a consistent manager passes its own check just when its times are positive |
| `AddrCheck.CheckAfterGood` | BOP-base/src/addrman.cpp:261-310 | after `Good_` for a known service the check passes just when the time given to it is positive |
| `AddrImage.ConsistentWritable` | BOP-base/src/addrman.h:279-317 | what the writer relies on holds of every consistent manager |
| `AddrImage.HeaderAt` | BOP-base/src/addrman.h:272-282 | the stream starts with version, key, the two counts and the number of buckets |
| `AddrImage.EntryAt` | BOP-base/src/addrman.h:283-306 | then come the entries, one by one |
| `AddrImage.BucketItemAt` | BOP-base/src/addrman.h:307-317 | and then each bucket at its place |
| `AddrManSerial.WriteEntries` | BOP-base/src/addrman.h:283-306 | the entries of one kind in the order of ids, with their numbers |
| `AddrManSerial.WriteBuckets` | BOP-base/src/addrman.h:307-317 | the buckets as the numbers of their entries |
| `AddrManSerial.Serialize` | BOP-base/src/addrman.h:270-317 | the stream is the image of the tables |
| `AddrRestore.ConsistentReadable` | BOP-base/src/addrman.h:318-378 | a consistent manager's image can be read back |
| `AddrRestore.LoadStep` | BOP-base/src/addrman.h:327-339 | each new entry read in extends the restored prefix of the tables |
| `AddrRestore.RoomToFill` | BOP-base/src/addrman.h:342-358 | the tried bucket of a saved entry always has room when it is read, so none is lost |
| `AddrRestore.RefillStep` | BOP-base/src/addrman.h:366-376 | each index read in adds one reference below the limit and the id to its bucket |
| `AddrRestore.RestoreDone` | BOP-base/src/addrman.h:319-378 | the tables read back are consistent and those written, up to a renumbering |
| `AddrManSerial.Unserialize` | BOP-base/src/addrman.h:318-378 | reading the image of consistent tables gives a valid manager restored from them; from any stream at all, `vRandom` is numbered and counted right, no tried bucket is too full, and the new entries have the addresses in the stream |
| `AddrManSerial.ReadSameAddress` | BOP-base/src/addrman.h:327-339 | a stream with two new entries of one address does not give a consistent manager |
| `AddrManSerial.RoundTrip` | BOP-base/src/addrman.h:248-380 | write and read back: same entries, buckets, counts and key up to ids |
| `CheckQueue.CCheckQueue.LockAfterBatch` | BOP-base/src/checkqueue.h:69-111 | the critical section after a batch: state, outcome and the notification of the master |
| `CheckQueue.CCheckQueue.LockAfterWait` | BOP-base/src/checkqueue.h:93-111 | the critical section after a wake-up |
| `CheckQueue.CCheckQueue.TakeBatch` | BOP-base/src/checkqueue.h:102-108 | the batch is the end of the stack, in reverse, and the rest stays |
| `CheckQueue.CCheckQueue.Add` | BOP-base/src/checkqueue.h:136-147 | the checks are pushed and counted, and no, one or all workers notified |
| `CheckQueue.BatchSizeFits` | BOP-base/src/checkqueue.h:97-101 | a batch has at least one check, no more than the queue and no more than the limit |
| `WakeUps.BatchIsShare` | BOP-base/src/checkqueue.h:97-110 | a batch is the end of the stack in reverse; more than one check only up to the limit and an equal share, and no fewer than those allow; it starts from what has failed so far |
| `WakeUps.AddWakes` | BOP-base/src/checkqueue.h:136-147 | one check wakes one of the workers that sleep, more wake all of them, and nothing else is woken |
| `WakeUps.WokenGetsWork` | BOP-base/src/checkqueue.h:93-110 | who comes back while checks are queued leaves with some |
| `WakeUps.MasterWokenExactly` | BOP-base/src/checkqueue.h:71-76 | a worker wakes the sleeping master just when all that was added is done |
| `CheckQueueProtocol.InvStep` | BOP-base/src/checkqueue.h:61-147 | every step keeps the invariant: the counters, the conservation of checks and the verdicts |
| `CheckQueueProtocol.WaitIsCorrect` | BOP-base/src/checkqueue.h:82-91 | only the master returns, and its result is the conjunction of all checks added |
| `CheckQueueProtocol.EveryWaitIsCorrect` | BOP-base/src/checkqueue.h:130-147 | the same over every interleaving from the start, against the history of calls to Add |
| `CheckQueueProtocol.IdleBetweenWaits` | BOP-base/src/checkqueue.h:164-171 | between waits the assertions of the control object hold |
| `CheckQueueProtocol.NoLostWakeUp` | BOP-base/src/checkqueue.h:71-95 | a master waiting without a notification has a worker at work |
| `CheckQueueProtocol.WaitNotStuck` | BOP-base/src/checkqueue.h:61-118 | until the master returns some productive step is possible |
| `CheckQueueProtocol.ProductiveStep` | BOP-base/src/checkqueue.h:61-118 | each productive step lowers a potential |
| `CheckQueueProtocol.StepPotential` | BOP-base/src/checkqueue.h:61-147 | no step raises it by more than one for a thread that enters the loop, or for the checks and notifications of an addition |
| `CheckQueueProtocol.WorkBound` | BOP-base/src/checkqueue.h:61-147 | in every run the productive steps are bounded by the potential at the start and what was gained |
| `CheckQueueProtocol.WaitTerminates` | BOP-base/src/checkqueue.h:61-118 | while nothing is added, the productive steps of any run are no more than the potential at its start and the threads that enter the loop |
| `CheckQueueProtocol.ExecutionInv` | BOP-base/src/checkqueue.h:61-147 | the invariant holds in every reachable state |
| `Merkle.CBlock.BuildMerkleTree` | BOP-base/src/main.h:955-972 | the array holds all levels one after the other, and the result is the root, or 0 for no transactions |
| `Merkle.CBlock.GetMerkleBranch` | BOP-base/src/main.h:974-988 | the sibling of the node at every level, the tree being built first if it is not |
| `Merkle.CheckMerkleBranch` | BOP-base/src/main.h:990-1003 | what the branch makes of the leaf, and 0 for the index -1 |
| `Merkle.CheckOwnBranch` | BOP-base/src/main.h:955-1003 | the branch of any transaction checks out to the root of the block |
| `Merkle.RootIsTop` | BOP-base/src/main.h:955-972 | the root of the flat array is the top node of the recursive tree with last nodes doubled |
| `Merkle.TreeHoldsNodes` | BOP-base/src/main.h:955-972 | every node of the recursive tree is at the offset of its level in the array |
| `Merkle.BranchReachesRoot` | BOP-base/src/main.h:974-1003 | every leaf climbs by its branch to the root |
| `Merkle.BranchLength` | BOP-base/src/main.h:974-988 | a branch is as long as the tree is deep |
| `Merkle.TwoLeavesClash` | BOP-base/src/main.h:990-1003 | two leaves that climb to one root from one index give an explicit collision |
| `Merkle.BranchProvesLeaf` | BOP-base/src/main.h:974-1003 | a branch of full length that climbs to the root starts at that leaf, or gives a collision |
| `Merkle.SameLengthRootsClash` | BOP-base/src/main.h:955-972 | two lists of one length with one root show a collision at a leaf where they differ |
| `Merkle.RootTellsSameLength` | BOP-base/src/main.h:955-972 | the root tells lists of m and of n leaves apart, up to such a collision, just when m = n |
| `Merkle.OneRootTwoLengths` | BOP-base/src/main.h:955-972 | for any hash and two different lengths, two lists with one root and no collision between their branches |
| `Merkle.RootForgetsLength` | BOP-base/src/main.h:961-970 | an odd list and the list with its last leaf doubled have the same root |
| `Replacement.IsNewerThan` | BOP-base/src/main.h:498-525 | the one-pass scan decides whether the least differing old number is below all differing new ones |
| `Replacement.NewerExactly` | BOP-base/src/main.h:498-525 | the same outputs are spent, and of the numbers that differ some old one is below all new ones |
| `Replacement.NewerIrreflexive` | BOP-base/src/main.h:498-525 | no version replaces itself |
| `Replacement.NewerAsymmetric` | BOP-base/src/main.h:498-525 | of two versions at most one replaces the other |
| `Replacement.NewerTransitive` | BOP-base/src/main.h:498-525 | replacement is transitive |
| `Replacement.ReplacementsNeverReturn` | BOP-base/src/main.h:498-525 | no chain of replacements comes back to its start |
| `Locator.CBlockLocator.Set` | BOP-base/src/main.h:1491-1506 | the hashes at the offsets that fit, and the genesis hash |
| `Locator.CBlockLocator.GetDistanceBack` | BOP-base/src/main.h:1508-1527 | the independent replay gives the offset of the entry found |
| `Locator.CBlockLocator.GetBlockIndex` | BOP-base/src/main.h:1529-1543 | the block of the first entry in the main chain, or the genesis block |
| `Locator.CBlockLocator.GetBlockHash` | BOP-base/src/main.h:1545-1559 | its hash, or the genesis hash |
| `Locator.OffIs` | BOP-base/src/main.h:1491-1506 | the offsets are 0 to 11 and then 9 + 2^(k - 10) |
| `Locator.HashesAt` | BOP-base/src/main.h:1491-1506 | entry i is the block at offset i, and there are as many as fit the height |
| `Locator.EntryMatches` | BOP-base/src/main.h:1529-1543 | an entry matches just when it is at or behind the fork |
| `Locator.LocatorLeads` | BOP-base/src/main.h:1491-1543 | the fork itself if at most 11 back, else a block less far behind it than it is behind the start |
| `Locator.LocatorLength` | BOP-base/src/main.h:1491-1506 | exact bounds on the height in terms of the number of entries |
| `Locator.Exchange` | BOP-base/src/main.h:1491-1543 | for any receiver: the block found, between the fork and twice as far, and the distance, which is the true one just when some offset lies between the fork and the genesis block |
| `Locator.ReplayExact` | BOP-base/src/main.h:1508-1527 | the replay gives the distance of the block found just then, and otherwise too much |
| `Locator.ReplayTooFar` | BOP-base/src/main.h:1508-1527 | for a chain of 13 blocks and a node that has the first one, 13 instead of 12 |
| `BlockTree.AncestorAt` | BOP-base/src/main.h:1104-1114 | the ancestor at a height is the block so many links back |
| `Keccak.ThetaIsSpec` | BOP-base/src/keccak.c:958-1014 | the THETA macro is the step theta of FIPS 202 |
| `Keccak.RhoIsSpec` | BOP-base/src/keccak.c:1016-1045 | the rotation counts are those of the walk of the step rho |
| `Keccak.RhoIsOnlySpec` | BOP-base/src/keccak.c:1016-1045 | and no other result satisfies the definition of that step |
| `Keccak.ThetaOfComplement` | BOP-base/src/keccak.c:1047-1056 | theta moves the complement of two columns |
| `Keccak.PiOfComplement` | BOP-base/src/keccak.c:1047-1056 | pi takes it to the mask that KHI expects |
| `Keccak.KhiOfComplement` | BOP-base/src/keccak.c:1058-1135 | on lanes with that mask KHI computes chi and leaves the first mask |
| `KeccakF.NamingNext` | BOP-base/src/keccak.c:1139-1186 | every table names each variable once |
| `KeccakF.ViewNext` | BOP-base/src/keccak.c:1139-1186 | to rename the variables is to apply pi |
| `KeccakF.RoundsOfComplement` | BOP-base/src/keccak.c:1047-1135 | the rounds of the code on complemented lanes are the rounds of FIPS 202 with the same lanes complemented |
| `HashStandards.IotaIsSpec` | BOP-base/src/keccak.c:1137 | iota changes lane (0, 0) by the round constant and no other bit |
| `HashStandards.ChiIsSpec` | BOP-base/src/keccak.c:1058-1135 | chi on any bit of the state, as FIPS 202 numbers them |
| `HashStandards.PiIsSpec` | BOP-base/src/keccak.c:1139-1186 | pi on any lane |
| `KeccakF.KfElt` | BOP-base/src/keccak.c:1392-1397 | one unrolled round, from one naming to the next |
| `KeccakF.ThetaMacro` | BOP-base/src/keccak.c:975-1014 | the assignments to the variables, one after the other, are theta on the lanes they hold |
| `KeccakF.RhoMacro` | BOP-base/src/keccak.c:1016-1045 | the same for the rotations |
| `KeccakF.KhiMacro` | BOP-base/src/keccak.c:1070-1135 | the same for the rows, each computed before its five variables are assigned |
| `KeccakF.P1ToP0` | BOP-base/src/keccak.c:1188-1215 | the moves bring every variable back to its first name |
| `KeccakF.P2ToP0` | BOP-base/src/keccak.c:1217-1245 | the same after two rounds |
| `KeccakF.P4ToP0` | BOP-base/src/keccak.c:1247-1277 | the same after four rounds |
| `KeccakF.P6ToP0` | BOP-base/src/keccak.c:1279-1311 | the same after six rounds |
| `KeccakF.P8ToP0` | BOP-base/src/keccak.c:1313-1347 | the same after eight rounds |
| `KeccakF.P12ToP0` | BOP-base/src/keccak.c:1349-1387 | the same after twelve rounds |
| `KeccakF.KeccakF1` | BOP-base/src/keccak.c:1403-1411 | unroll factor 1 computes the 24 rounds |
| `KeccakF.KeccakF2` | BOP-base/src/keccak.c:1413-1422 | unroll factor 2 computes the 24 rounds |
| `KeccakF.KeccakF4` | BOP-base/src/keccak.c:1424-1435 | unroll factor 4 computes the 24 rounds |
| `KeccakF.KeccakF6` | BOP-base/src/keccak.c:1437-1450 | unroll factor 6 computes the 24 rounds |
| `KeccakF.KeccakF8` | BOP-base/src/keccak.c:1452-1467 | unroll factor 8 computes the 24 rounds |
| `KeccakF.KeccakF12` | BOP-base/src/keccak.c:1469-1488 | unroll factor 12 computes the 24 rounds |
| `KeccakF.KeccakF0` | BOP-base/src/keccak.c:1490-1517 | the full unroll computes the 24 rounds |
| `Interleave.InterleaveSplits` | BOP-base/src/keccak.c:427-440 | INTERLEAVE puts the even bits in one word and the odd bits in the other |
| `Interleave.UninterleaveInterleave` | BOP-base/src/keccak.c:427-457 | UNINTERLEAVE undoes INTERLEAVE |
| `Interleave.InterleaveUninterleave` | BOP-base/src/keccak.c:427-457 | and the other way round |
| `Interleave.InterleavedRotation` | BOP-base/src/keccak.c:772-861 | each of the 64 rotations of interleaved words is the rotation of the lane |
| `Interleave.HalvesRotation` | BOP-base/src/keccak.c:864-948 | and so is each rotation of the two halves of a lane |
| `Interleave.SplitCommutes` | BOP-base/src/keccak.c:762-767 | the bitwise operations on interleaved words are those on the lane |
| `KeccakNarrow.NarrowRound` | BOP-base/src/keccak.c:762-951 | on 32-bit words, interleaved or not, a round gives the words of the round on lanes |
| `KeccakNarrow.NarrowRounds` | BOP-base/src/keccak.c:762-1135 | the rounds on the words of a state with the kept lanes complemented give the words of the rounds of FIPS 202 |
| `KeccakNarrow.InAndOut` | BOP-base/src/keccak.c:427-457 | INTERLEAVE and UNINTERLEAVE lead from the two halves of a word to its pair and back |
| `KeccakNarrowSponge.InputPairs` | BOP-base/src/keccak.c:655-760 | a block is added to the pairs as it is to the lanes |
| `KeccakNarrowSponge.SphKeccakNarrow.Core` | BOP-base/src/keccak.c:1568-1603 | the pairs stay those of the state of the 64-bit form, for any portions |
| `KeccakNarrowSponge.SphKeccakNarrow.Close` | BOP-base/src/keccak.c:1651-1700 | the digest is the first bits of KECCAK[c] in both 32-bit forms |
| `KeccakSponge.InputBuf` | BOP-base/src/keccak.c:183-188 | a block is added to the state word by word, little-endian |
| `KeccakSponge.TailPads` | BOP-base/src/keccak.c:1617-1634 | in all cases the bytes taken in at the end complete the message to pad10*1 |
| `KeccakSponge.BlockStep` | BOP-base/src/keccak.c:1595-1599 | one block through the code is one block of the sponge, with the lanes complemented |
| `HashStandards.FlatIsSpec` | BOP-base/src/keccak.c:1642-1643 | the row of bits of a state is that of FIPS 202 |
| `HashStandards.XorBlockIsSpec` | BOP-base/src/keccak.c:183-188 | a block is added to the first bits of that row |
| `HashStandards.RateIsSpec` | BOP-base/src/keccak.c:1704-1707 | the rate is 1600 bits less twice the digest |
| `HashStandards.PadIsSpec` | BOP-base/src/keccak.c:1617-1634 | the padding is pad10*1 to the next multiple of the rate |
| `KeccakSponge.SphKeccak.constructor` | BOP-base/src/keccak.c:1525-1566 | an initialised context holds the empty message |
| `KeccakSponge.SphKeccak.Core` | BOP-base/src/keccak.c:1568-1603 | for any portion the state is the sponge after the whole blocks, and the rest is buffered |
| `KeccakSponge.SphKeccak.Close` | BOP-base/src/keccak.c:1607-1647 | the digest is the first bits of KECCAK[c] on all that was taken in and the extra bits |
| `Blake.FeedSplit` | BOP-base/src/blake.c:800-836 | the state does not depend on how the message is split |
| `Blake.SphBlake.Core` | BOP-base/src/blake.c:800-836 | chunk by chunk has the effect of byte after byte |
| `Blake.SphBlake.Update` | BOP-base/src/blake.c:800-836 | the context holds the message taken in: chaining value, counter and buffer |
| `Blake.FeedAllHolds` | BOP-base/src/blake.c:800-836 | chaining value, counter and buffer are a fold over the whole blocks, for every message |
| `Blake.BumpCounts` | BOP-base/src/blake.c:826-831 | the two words of the counter count the bits modulo two words |
| `Blake.AdjustedCounts` | BOP-base/src/blake.c:858-866 | the pre-set counter makes the last bits be compressed under their number, or under zero if there are none |
| `Blake.ShortPads` | BOP-base/src/blake.c:853-873 | one block: tail and length are the padding of the submission |
| `Blake.LongPads` | BOP-base/src/blake.c:853-884 | two blocks: the same |
| `Blake.ZeroCounterBlock` | BOP-base/src/blake.c:877-884 | a block without message bits is compressed under a counter of zero |
| `Blake.LengthWords` | BOP-base/src/blake.c:856-857 | the two length words are the length in bits, big-endian |
| `HashStandards.BitOf` | BOP-base/src/blake.c:856-857 | the binary notation of a number, bit by bit |
| `HashStandards.DigestIsSpec` | BOP-base/src/blake.c:886-888 | each word of the digest is at its place, the most significant bit first |
| `HashStandards.BlakePadIsSpec` | BOP-base/src/blake.c:853-884 | the padding is a one, zeros, the mark and the length to the next whole block |
| `Blake.SphBlake.Close` | BOP-base/src/blake.c:838-889 | for both word sizes and all output sizes, the digest of the submission |
| `StakeModifier.GetLastStakeModifier` | BOP-base/src/kernel.cpp:40-51 | modifier and time of the nearest generating block, or failure when there is none |
| `StakeModifier.GetSelectionInterval` | BOP-base/src/kernel.cpp:54-67 | the sum of the 64 sections |
| `StakeModifier.SelectBlockFromCandidates` | BOP-base/src/kernel.cpp:72-113 | the scan with its early break finds the choice of the round, and fails only when nothing is free |
| `StakeModifier.ChoiceUnique` | BOP-base/src/kernel.cpp:72-113 | the rule of a round leaves one choice |
| `ModifierRules.ChoiceByHashes` | BOP-base/src/kernel.cpp:84-108 | what the choice means for the hashes themselves, for each pair of kinds of blocks and for ties |
| `ModifierRules.StakeFirst` | BOP-base/src/kernel.cpp:89-97 | a proof-of-work block chosen before an eligible proof-of-stake block has a hash below 2^224 |
| `ModifierRules.SectionSeconds` | BOP-base/src/kernel.cpp:54-58 | each section is the whole part of its share, from 200 to 600 seconds |
| `ModifierRules.IntervalSeconds` | BOP-base/src/kernel.cpp:61-67 | all of them are 21135 seconds |
| `ModifierRules.StartSeconds` | BOP-base/src/kernel.cpp:153 | the selection interval ends where the interval of the last block begins |
| `ModifierRules.StopSeconds` | BOP-base/src/kernel.cpp:166-169 | each round reaches one section further, the last one to that point |
| `ModifierRules.CandidatesExactly` | BOP-base/src/kernel.cpp:154-162 | the candidates are the final run of blocks not earlier than the start |
| `ModifierRules.CandidatesInOrder` | BOP-base/src/kernel.cpp:161-162 | they are in the order of time, and of hash at one time |
| `StakeModifier.Candidates` | BOP-base/src/kernel.cpp:149-161 | the blocks that lead up to the end of the branch within the interval |
| `StakeModifier.SortKeeps` | BOP-base/src/kernel.cpp:162 | sorting loses no candidate and repeats none |
| `StakeModifier.SelectRounds` | BOP-base/src/kernel.cpp:164-180 | it never runs out of blocks; bit r is the entropy bit of round r, higher bits are zero |
| `StakeModifier.PicksDistinct` | BOP-base/src/kernel.cpp:168-179 | the selected blocks are different |
| `StakeModifier.PicksUnique` | BOP-base/src/kernel.cpp:164-180 | the rules leave one sequence of selected blocks |
| `StakeModifier.ComputeNextStakeModifier` | BOP-base/src/kernel.cpp:128-213 | it fails only without a generator, and gives the next modifier |
| `StakeModifier.NextUnique` | BOP-base/src/kernel.cpp:128-213 | a branch has one next modifier |
| `StakeModifier.ModifierOfGenerator` | BOP-base/src/kernel.cpp:137-147 | a block's modifier is that of the nearest generating block, itself included |
| `ModifierRules.ModifierIsFresh` | BOP-base/src/kernel.cpp:137-147 | a block that makes no modifier has one from the interval of the block before, or a later one |
| `ModifierRules.MadeInLaterInterval` | BOP-base/src/kernel.cpp:146-147 | one that makes it follows a block in a later interval than the last generating block |
| `StakeModifier.OneGeneratorPerInterval` | BOP-base/src/kernel.cpp:146-147 | with times that do not go back, generating blocks are in strictly increasing intervals |
| `StakeModifier.ChainGrows` | BOP-base/src/main.cpp:2001-2005 | a chain grows by what the computation gives |
| `StakeModifier.GetKernelStakeModifier` | BOP-base/src/kernel.cpp:217-247 | the first late enough generating block after the given one, or failure while there is none |
| `ModifierRules.KernelBlockExactly` | BOP-base/src/kernel.cpp:217-247 | the first generating block after the given one that is 21135 seconds later |
| `StakeModifier.KernelModifierStable` | BOP-base/src/kernel.cpp:217-247 | a successful result stays the same on every chain that agrees up to that block |
| `SyncCheckpoint.TraceBack` | BOP-base/src/checkpoints.cpp:98-100 | the walk back to a height never meets the end of the chain |
| `SyncCheckpoint.Checkpoints.ValidateSyncCheckpoint` | BOP-base/src/checkpoints.cpp:87-129 | true just for a higher descendant; a conflict, and only that, is recorded; the structure failures are unreachable |
| `SyncCheckpoint.Checkpoints.AcceptPendingSyncCheckpoint` | BOP-base/src/checkpoints.cpp:145-186 | the whole new state, for every outcome of disk and main chain |
| `SyncCheckpoint.Checkpoints.ProcessSyncCheckpoint` | BOP-base/src/checkpoints.cpp:371-419 | the whole new state for a received message |
| `SyncCheckpoint.Checkpoints.CheckSync` | BOP-base/src/checkpoints.cpp:199-224 | what the check admits above, at and below the checkpoint |
| `SyncCheckpoint.StepFollows` | BOP-base/src/checkpoints.cpp:87-186 | each step keeps the tree and leads to the same checkpoint or a higher descendant |
| `SyncCheckpoint.RunFollows` | BOP-base/src/checkpoints.cpp:87-186 | over every run each checkpoint descends from all earlier ones |
| `SyncCheckpoint.PassedDescends` | BOP-base/src/checkpoints.cpp:209-219 | a block at or above the checkpoint that passes descends from it |
| `SyncCheckpoint.RefusedStaysRefused` | BOP-base/src/checkpoints.cpp:199-224 | a refused block outside the index is refused after every advance |
| `SyncCheckpoint.RefusedOverRun` | BOP-base/src/checkpoints.cpp:199-224 | the same over every run |
| `PendingCheckpoint.TakenAtOnce` | BOP-base/src/checkpoints.cpp:145-186 | a checkpoint that is an advance, with good outcomes, becomes that of the node with its message, and none is pending |
| `PendingCheckpoint.KeptOtherwise` | BOP-base/src/checkpoints.cpp:87-186 | without that the node keeps its checkpoint and message |
| `PendingCheckpoint.BecomesPending` | BOP-base/src/checkpoints.cpp:377-381 | a signed checkpoint with an unknown block is kept as pending with its message |
| `PendingCheckpoint.StaysPending` | BOP-base/src/checkpoints.cpp:145-186 | and stays so over every step that does not decide it |
| `PendingCheckpoint.DroppedPending` | BOP-base/src/checkpoints.cpp:148-155 | a pending one that is no advance is dropped |
| `PendingCheckpoint.InvalidExactly` | BOP-base/src/checkpoints.cpp:108-169 | a checkpoint is marked invalid just when it conflicts or the main chain cannot be moved to it |
| `PendingCheckpoint.PendingOverRun` | BOP-base/src/checkpoints.cpp:371-419 | over a run it is pending until a step decides it |
| `PendingCheckpoint.PendingIsTaken` | BOP-base/src/checkpoints.cpp:145-186 | and is taken when its block has come and is an advance |
| `PendingCheckpoint.CheckpointsAreSigned` | BOP-base/src/checkpoints.cpp:371-419 | in every run each checkpoint, with its message, was received signed or is of the start |
| `PendingCheckpoint.NewBlockPasses` | BOP-base/src/checkpoints.cpp:199-224 | a new block passes just when it descends from the checkpoint |
| `PendingCheckpoint.KnownBlockPasses` | BOP-base/src/checkpoints.cpp:199-224 | a known block passes just when it is below it or descends from it |
| `BlockTree.AddBlockOk` | BOP-base/src/main.cpp:1978-2011 | the index stays a tree when a block is added on top of one of its blocks |
| `BlockSpec.Bounded` | BOP-base/src/miner.cpp:145-158 | the limits are those given, clamped to the sane range |
| `BlockRules.TurnIsHighest` | BOP-base/src/miner.cpp:95-109 | each turn is of a ready transaction of the highest priority, and then fee, or the other way round once it goes by fee |
| `BlockRules.ReadyExactly` | BOP-base/src/miner.cpp:259-353 | ready is what had no turn and spends only from the disk and the block |
| `BlockRules.ByFeeExactly` | BOP-base/src/miner.cpp:257-299 | it goes by fee from the start without a priority part, and after the first transaction past that part |
| `BlockRules.EntersExactly` | BOP-base/src/miner.cpp:272-329 | a transaction enters just when the block with it keeps the limits and its time, inputs and fee are right |
| `BlockRules.PriorityPart` | BOP-base/src/miner.cpp:293-299 | while it goes by priority the block is within that part, and all of it has high priority |
| `BlockRules.TotalsWith` | BOP-base/src/miner.cpp:324-329 | size, operations and fees grow by those of each transaction |
| `BlockSpec.BlockGrows` | BOP-base/src/miner.cpp:324-329 | a transaction that passed the checks keeps order, uniqueness, limits and totals |
| `BlockSpec.OneBlock` | BOP-base/src/miner.cpp:259-354 | without ties the rule leaves one sequence of turns, and one block |
| `BlockSpec.RunComplete` | BOP-base/src/miner.cpp:259-354 | in the end a transaction is in the block, or was refused in its turn with its parents in the block and under the comparer of that turn, or spends one left out |
| `BlockSpec.LeftOutIsOut` | BOP-base/src/miner.cpp:259-354 | and what was refused in its turn, or spends one left out, is not in the block |
| `BlockSpec.ClosedPool` | BOP-base/src/miner.cpp:190-210 | with every input on disk or in the pool, no pointer to a dropped orphan is left |
| `StaleOrphans.BlockEnterable` | BOP-base/src/miner.cpp:259-354 | a block holds only transactions that lead back to the disk through the pool |
| `StaleOrphans.AllEnter` | BOP-base/src/miner.cpp:259-354 | a run in which nothing is refused takes all of these |
| `StaleOrphans.NeverFollowsExactly` | BOP-base/src/miner.cpp:199-210 | for a pool that fits a block: no priorities, fees, checks and limits lead to a pointer to a dropped orphan just when no transaction with one in its list leads back to the disk |
| `StaleOrphans.FollowedExample` | BOP-base/src/miner.cpp:199-210 | a pool of two transactions for which one does |
| `Miner.FileInputs` | BOP-base/src/miner.cpp:190-225 | up to the first missing input, an orphan depends on just its parents in the pool and is put in the list of each |
| `Miner.Collect` | BOP-base/src/miner.cpp:184-250 | every transaction without a missing input is either ready or waits for its parents; pointers to dropped orphans are left in just the lists of the parents before the missing input |
| `PriorityQueue.MakeHeap` | BOP-base/src/miner.cpp:260 | a heap of the same entries under the comparer |
| `PriorityQueue.PopHeap` | BOP-base/src/miner.cpp:262-270 | of a heap under the comparer, the front, which no other entry is above, and a heap of the rest |
| `PriorityQueue.PushHeap` | BOP-base/src/miner.cpp:348-349 | the new entry finds its place and the heap is one again |
| `Miner.IncludeKeeps` | BOP-base/src/miner.cpp:321-339 | when a transaction enters, only those in its list are still to be told |
| `Miner.EraseKeeps` | BOP-base/src/miner.cpp:343-351 | telling one dependent keeps everything, and queues it just when it waits for nothing more |
| `Miner.TellDependers` | BOP-base/src/miner.cpp:337-353 | afterwards nobody waits for a transaction in the block; it fails just when the list has a pointer to a dropped orphan |
| `Miner.QueueIsReady` | BOP-base/src/miner.cpp:259-353 | the queue holds just the transactions that have not had their turn and whose parents are in the block |
| `Miner.TopIsTurn` | BOP-base/src/miner.cpp:259-298 | the top of the queue is the next turn of the rule |
| `Miner.CreateNewBlock` | BOP-base/src/miner.cpp:145-354 | it ends, its block is that of a run of the rule to its end, with each transaction once, parents first, within the limits, with the right totals; it stops early just at a pointer to a dropped orphan, which does not happen if none can be reached |
| `Miner.FollowsPointer` | BOP-base/src/miner.cpp:337-344 | for the pool of two it does happen |
| `Bignum.BodyRoundTrip` | BOP-base/src/bignum.h:294-319 | what is written in the MPI format is read back, for every integer |
| `Bignum.CBigNum.SetVch` | BOP-base/src/bignum.h:294-307 | the bytes are taken as the number they write, with its sign; their size wraps around, and then only the last ones count, or none |
| `Bignum.CBigNum.GetVch` | BOP-base/src/bignum.h:309-319 | the bytes of the number, which read back as it |
| `Bignum.CBigNum.SetInt64` | BOP-base/src/bignum.h:165-206 | the number is exactly the argument, the minimum included |
| `Bignum.CBigNum.SetUint256` | BOP-base/src/bignum.h:250-276 | the number is that of the 32 bytes |
| `Bignum.CBigNum.GetUint256` | BOP-base/src/bignum.h:278-291 | the low 32 bytes of the magnitude |
| `Bignum.Uint256RoundTrip` | BOP-base/src/bignum.h:250-291 | a 256-bit number comes out as it went in |
| `Bignum.CBigNum.SetCompact` | BOP-base/src/bignum.h:321-331 | the number of the size and the three bytes |
| `Bignum.CBigNum.GetCompact` | BOP-base/src/bignum.h:333-344 | the size and the first three bytes |
| `Bignum.CompactLoss` | BOP-base/src/bignum.h:321-344 | writing and reading drops less than 256^(size - 3), and nothing up to three bytes |
| `Bignum.CompactIdempotent` | BOP-base/src/bignum.h:321-344 | a compact form read and written stays as it is |
| `Bignum.CompactMonotone` | BOP-base/src/bignum.h:333-344 | the compact forms are in the order of the numbers |
| `Base58.EncodeBase58` | BOP-base/src/base58.h:27-65 | the code of the bytes just when they are encodable, and in any case that of the number the MPI format makes of them |
| `Base58.LoadedExactly` | BOP-base/src/base58.h:34-39 | bytes keep their number through the MPI format just when they are fewer than 2^31 - 5 or all zero |
| `Base58.EncodesExactly` | BOP-base/src/base58.h:27-65 | and just then their code comes out |
| `Base58.DecodeBase58` | BOP-base/src/base58.h:75-119 | the bytes of the core of the string, or failure when there is anything else but blanks around it |
| `Base58.TrimmedIsDigits` | BOP-base/src/base58.h:103-108 | trimming the sign byte gives the bytes of the number |
| `Base58.DecodeEncode` | BOP-base/src/base58.h:27-119 | decoding inverts encoding on every byte string |
| `Base58.EncodeDecode` | BOP-base/src/base58.h:27-119 | encoding inverts decoding on every string over the alphabet |
| `Base58.DecodedExactly` | BOP-base/src/base58.h:75-119 | a string decodes to the bytes its core is the code of, and to no others |
| `Base58.CoreExactly` | BOP-base/src/base58.h:75-101 | the core of a string is what is left between blanks, if that is over the alphabet |
| `Base58.AlphabetExactly` | BOP-base/src/base58.h:24 | the alphabet is digits and letters without 0, O, I and l |
| `Base58.SpaceExactly` | BOP-base/src/base58.h:82-92 | what counts as a blank |
| `Base58.CStringIs` | BOP-base/src/base58.h:125-128 | a string is read up to its first null character |
| `Base58.EncodeBase58Check` | BOP-base/src/base58.h:132-139 | the same for the bytes and the first four bytes of their hash |
| `Base58.DecodeBase58Check` | BOP-base/src/base58.h:143-160 | the bytes without their check, or failure with nothing returned |
| `Base58.DecodedCheckExactly` | BOP-base/src/base58.h:132-160 | a string checks to bytes just when its core is their checked code |
| `Base58.CheckRoundTrip` | BOP-base/src/base58.h:132-160 | what is encoded with a check decodes with it |
| `Base58.CBase58Data.SetData` | BOP-base/src/base58.h:195-206 | the version, cut to a byte, and the data as given |
| `Base58.CBase58Data.SetString` | BOP-base/src/base58.h:210-226 | version and data of a string that checks, and cleared by any other |
| `Base58.CBase58Data.ToString` | BOP-base/src/base58.h:233-238 | the checked code of version and data, just when it is encodable |
| `Base58.StringRoundTrip` | BOP-base/src/base58.h:210-238 | what is written as a string is read back as it was, just when it is encodable |
| `LockedPages.MaskRounds` | BOP-base/src/allocators.h:51-52 | masking rounds down to a multiple of the page size |
| `LockedPages.PowerTest` | BOP-base/src/allocators.h:51 | the test of the constructor holds just of powers of two |
| `LockedPages.TouchesMeans` | BOP-base/src/allocators.h:61-64 | the pages of a range are those its addresses round down to |
| `LockedPages.LockedPageManager.LockRange` | BOP-base/src/allocators.h:56-77 | it ends just when the loop over the pages does; then there is one more live range, and counts, histogram and locked pages stay exact |
| `LockedPages.LockedPageManager.UnlockRange` | BOP-base/src/allocators.h:79-99 | it ends just when the loop does; then there is one live range less, the rest stays exact, and the assertion never fires |
| `LockedPages.CountedWhole` | BOP-base/src/allocators.h:61-62 | a range counts as it is just when it does not wrap around the address space |
| `LockedPages.LoopEnds` | BOP-base/src/allocators.h:63-64 | the loop over the pages ends just when the end of the last page is an address |
| `LockedPages.LockedPageManager.GetLockedPageCount` | BOP-base/src/allocators.h:102-106 | the number of pages the system keeps locked |
| `LockedPages.StillLocked` | BOP-base/src/allocators.h:88-92 | a page of a live range is in the histogram when its turn comes |
| `LockedPages.CountWithout` | BOP-base/src/allocators.h:79-99 | a page's count drops by one just when the range touches it |

## Left out

- AddrManSerial.Unserialize: of a stream that no writer made it does not say when the result is consistent; with a bucket
  count other than 256 the code does not bound the new buckets, and with more than 256 it goes past the last one, where the
  model returns false. The stream is a sequence of fields, not of bytes, and reading past its end returns false.
- StakeModifier.Candidates: the two steps of pushing at the end and reversing are one step of pushing in front.
- Bignum.CBigNum.GetVch: has no limit; for numbers of 2^31 bytes or more the size that the MPI format gives wraps around.
- LockedPages.LockedPageManager.LockRange: for a loop that does not end the model returns false and changes nothing.
- Miner.CreateNewBlock: does not say what happens after the code follows a pointer to an orphan it has dropped; the model
  stops there and says so.
- `Select_` and `GetChance` of the address manager: floating point, and a loop that ends only with probability one.
- 32-bit overflow of the id counter of the address manager and of step counts: out of reach in practice.
- The services of an address are a set of bits, and its group, its hash and whether it is routable are parameters.
- `fQuit` of the check queue, and memory accesses outside the mutex.
- The 24 round constants, the hash constants and initial values: they are parameters, so every claim holds for any.
- The round function of BLAKE and the other hash functions of the repository.
- Renaming the variables and the moves between names in the 32-bit form of Keccak: the macros are the same as in the
  64-bit form, where this is proved.
- `ResetSyncCheckpoint`, signatures, disk writes and `SetBestChain`: outcomes outside the model.
- Script checks, input fetching and connecting, and fee rules in block assembly: outcomes outside the model, for
  any priority and fee values.
- The remaining conversions of big numbers (`getuint64`, `setuint64`, hexadecimal, decimal): they would add easy
  members only.
- RPC, networking, the wallet, the database and the script engine.
