# Verified model of the distributed synchronization system

This project models the state machines of a distributed synchronization system in Dafny and proves what
they guarantee: Raft leader election and log replication, cycle detection over a wait-for graph, a
consistent-hash ring, a durable message queue, one node of a MESI cache, and a lock manager that writes
to the Raft log.

`dafny verify dfyconfig.toml` checks everything.

## How the model is built

Each component has two forms. The source changes its fields in place, so each component is a class whose
methods follow the source statement by statement, with its loops and early returns. What each method does
is stated by a function on plain values, and the theorems are about runs of those functions: every
sequence of operations, every interleaving, every loss or repetition of messages.

| file | content |
|---|---|
| `RaftNode.dfy` | handlers of one Raft node |
| `RaftCluster.dfy` | the cluster as a transition system; an election is two steps, with any steps between |
| `ElectionSafety.dfy`, `ElectionUnsafe.dfy` | one leader per term under a guard; two leaders without it |
| `LogMatching.dfy`, `LogDivergence.dfy` | Log Matching under a guard; a run that breaks it without |
| `TwoNodeLogs.dfy` | Log Matching in every run of at most two nodes |
| `RepairedRaft.dfy` | the two repairs after which neither guard is needed |
| `SingleLeader.dfy` | replication by one leader to followers |
| `DeadlockDetector.dfy`, `DeadlockReports.dfy` | the depth-first search and its tables; when reports are exact |
| `HashRing.dfy`, `RingPositions.dfy`, `RingCollisions.dfy` | the ring and its lookups; what is on it; replica lists when positions collide |
| `DurableQueue.dfy` | queues, persistence log, acknowledgements, crashes and recoveries |
| `MesiCache.dfy` | line states over a least-recently-used map |
| `LockManager.dfy`, `LockHistory.dfy` | lock table, waiting lists, index by owner and Raft log; runs told by their requests |
| `RaftRuns.dfy`, `Prelude.dfy` | building runs; shared types and facts |

## What turned out false of the code

Each is shown by a run or an input, and each has its exact condition.

- Election Safety. A lost election clears the node's vote without a change of term
  (`src/consensus/raft.py:189-190`). A node that voted for another while it waited can vote again. The
  guard of `FinishKeepsVotesIff` is exact for the step, and `SafeExactlyUpToTwoNodes` for clusters.
- Log Matching. A conflicting entry is replaced and the entries after it stay
  (`src/consensus/raft.py:260-261`). `LogsMatchExactlyUpToTwoNodes` is exact for clusters, with a run for
  each larger one in `LogsDiverge`. `DeliverKeepsLogsIff` is exact for the step and the invariant that
  ties each entry to the log of its creator.
- Exact deadlock reports. A release keeps the edges of the graph (`src/consensus/raft.py:310-314`).
  No deadlock is missed, but `FalseAlarm` reports one that is none. `ExactFromHereIff` is exact: stale
  edges do no harm while chains of present waits cover them. `ReleaseStaysCoveredIff` says which releases
  keep them covered.
- At-least-once delivery. Message ids are producer and millisecond (`src/nodes/queue_node.py:134`).
  `AtLeastOnceIff`: two messages with one id, equal or not, are exactly what makes a loss possible;
  `AtLeastOnceByClock` says the same of producers and milliseconds.
- Replica lists under hash collisions. A node that another one hides can come to light
  (`src/nodes/queue_node.py:39-42`). `RemovalFiltersIff` is exact, `HiddenNodeAppears` an example.
- The index of locks by owner. A shared grant overwrites the owner, is not logged and leaves the index
  alone (`src/nodes/lock_manager.py:121-133`). `StepKeepsIndexIff` and `IndexedThroughoutIff` are exact;
  in `FailedReleaseTakesEffect` a release answers no although it happened.
- Least-recently-used eviction. A write evicts before it looks whether its key is present
  (`src/nodes/cache_node.py:90-98`), so writing a present key into a full cache throws another one out.
  `ExactThroughoutIff` says when the cache is least recently used to the letter, `StillResident` what
  always holds.

Where documentation and code differ the model follows the code. `docs/architecture.md` says that a remote
write invalidates a shared line; in the code it makes the line shared (`src/nodes/cache_node.py:111-117`).

## Reading guide

- `State()` of a class is its value form. `old(State())` in a postcondition is always the argument of the
  function that says what the method does.
- `KeepsVote`, `KeepsSuffix`, `StillReached`, `Covered`, `HidesTheNext`, `Wastes` and `Overwrites` are the
  conditions. Each can be checked before the step from the state and the message or request.
- In `RaftCluster.dfy` sent messages stay in sets for ever, so lost, late, repeated and reordered delivery
  is a matter of which steps a run contains.

## Model

| member | source | states |
|---|---|---|
| `RaftNodes.CountVotes` | src/consensus/raft.py:172-185 | an early end carries a newer term than the node's; otherwise the count is at least the own vote and at most one more for each answer |
| `RaftNodes.CountVotesMeans` | src/consensus/raft.py:172-185 | the walk ends early exactly at the first newer term; otherwise the count is the own vote and the number of granting answers |
| `RaftNodes.RaftNode.constructor` | src/consensus/raft.py:47-83 | a new node is a follower in term 0 with an empty log, and its peers are the other nodes of the list, in its order and as often |
| `RaftNodes.RaftNode.MajorityCount` | src/consensus/raft.py:108-109 | the smallest number that is more than half of the node list |
| `RaftNodes.RaftNode.StepToFollower` | src/consensus/raft.py:285-290 | sets the term, clears the vote, changes nothing else |
| `RaftNodes.RaftNode.StepToLeader` | src/consensus/raft.py:278-283 | takes over the role and records itself as leader, changes nothing else |
| `RaftNodes.RaftNode.OnHeartbeat` | src/consensus/raft.py:118-127 | an old term changes nothing; a newer one also clears the vote |
| `RaftNodes.RaftNode.BeginElection` | src/consensus/raft.py:142-170 | a leader does nothing, a node without peers or transport becomes leader, any other one moves to the next term, votes for itself and asks for votes with the index and term of its last entry |
| `RaftNodes.RaftNode.EndElection` | src/consensus/raft.py:172-190 | adopts the first newer term among the answers; without one leads if it is a candidate with a majority, and otherwise gives up its vote and follows in the same term |
| `RaftNodes.FinishConcludes` | src/consensus/raft.py:172-190 | the same of the function that the cluster theorems are about, said of the answers alone |
| `RaftNodes.HandlersAdoptTerm` | src/consensus/raft.py:118-251 | a message brings its receiver to the later of both terms; a new term clears the vote, within a term it stays; who is taken for leader, and when the role changes |
| `RaftNodes.VoteFollowsLogs` | src/consensus/raft.py:225-241 | the restriction of section 5.4.1 of the Raft paper: a node votes for the candidate of a new term if and only if the candidate's log ends in a later term, or in the same and is no shorter |
| `RaftNodes.CommitMoves` | src/consensus/raft.py:243-267 | an accepted message moves a lower commit index to what it says, as far as the log goes; nothing else moves it |
| `RaftNodes.RaftNode.OnRequestVote` | src/consensus/raft.py:225-241 | state and answer of the vote rule: newer term adopted, at most one candidate, only an up-to-date log |
| `RaftNodes.RaftNode.Append` | src/consensus/raft.py:217-223 | a leader adds one entry of its term whose index is its position; any other node refuses and stays unchanged |
| `RaftNodes.RaftNode.OnAppendEntries` | src/consensus/raft.py:243-267 | the handler in place equals the function on states; it answers yes exactly when the term is current and the previous entry matches |
| `RaftNodes.RaftNode.MergeEntries` | src/consensus/raft.py:257-261 | the loop over incoming entries equals the merge function |
| `RaftNodes.RaftNode.ApplyCommittedEntries` | src/consensus/raft.py:269-273 | the loop applies exactly the slice of entries after the last applied one up to the commit index |
| `RaftNodes.AdvanceCommitAppliesInOrder` | src/consensus/raft.py:263-273 | each newly committed entry is applied once, in order and in bounds |
| `RaftNodes.AppendEntriesAppliesInOrder` | src/consensus/raft.py:243-273 | whatever message arrives, counters stay inside the log and the applied trace grows by exactly the newly committed entries |
| `ElectionSafety.MajorityIsQuorum` | src/consensus/raft.py:108-109 | the majority of any node's list is more than half of the cluster, repeated names included |
| `ElectionSafety.CountedVotersGranted` | src/consensus/raft.py:172-185 | the votes counted are the node's own and those of that many distinct peers that granted |
| `ElectionSafety.WinnerHasQuorum` | src/consensus/raft.py:187-188 | a winner holds the votes of more than half of the cluster in its term |
| `ElectionSafety.StepKeepsBase` | src/consensus/raft.py:118-290 | every step keeps the invariant that needs no guard: candidates are in their own election, leaders were elected by a quorum, a winner keeps its vote |
| `ElectionSafety.StepKeepsVotes` | src/consensus/raft.py:118-290 | every step under the guard keeps one vote per node and term |
| `ElectionSafety.FinishKeepsVotesIff` | src/consensus/raft.py:187-190 | ending an election keeps the votes given if and only if the vote it clears is nobody's or the node's own |
| `ElectionSafety.VotesGiveOneLeader` | src/consensus/raft.py:225-241 | two quorums share a voter, so one vote per term gives one leader per term |
| `ElectionSafety.RunKeepsBase` | src/consensus/raft.py:142-290 | the unguarded invariant holds after every run |
| `ElectionSafety.RunKeepsVotes` | src/consensus/raft.py:142-290 | the vote invariant holds after every guarded run |
| `ElectionSafety.ElectionSafe` | src/consensus/raft.py:142-290 | Election Safety (section 5.2 of the Raft paper): in every guarded run at most one node ever became leader in a term |
| `ElectionSafety.KeepingTermKeepsVotes` | src/consensus/raft.py:142-190 | the guard holds in every run where no node leaves the term of its own pending election |
| `ElectionSafety.ElectionSafeWhenTermsKept` | src/consensus/raft.py:142-190 | Election Safety when no node changes term during its own pending election |
| `ElectionSafety.SmallClustersSafe` | src/consensus/raft.py:142-190 | with at most two nodes every run is safe, guard or not |
| `ElectionUnsafe.VoteTwice` | src/consensus/raft.py:189-190 | a node that votes while its own election is pending can vote twice in one term |
| `ElectionUnsafe.TwoLeaders` | src/consensus/raft.py:189-190 | every cluster of three or more nodes has a run with two leaders in one term |
| `ElectionUnsafe.SafeExactlyUpToTwoNodes` | src/consensus/raft.py:142-190 | the code is safe in all runs if and only if the cluster has at most two nodes |
| `LogMatching.MergeFirstAt` | src/consensus/raft.py:257-261 | position by position, what merging a slice leaves in a log |
| `LogMatching.MergeIsBasisThenRest` | src/consensus/raft.py:257-261 | between canonical logs a merge gives the sender's log followed by what the receiver had beyond it |
| `LogMatching.MergeTruncatesIff` | src/consensus/raft.py:257-261 | the merge equals the truncating rule of section 5.3 of the Raft paper if and only if it leaves no stale suffix |
| `LogMatching.MergeCanonicalIff` | src/consensus/raft.py:257-261 | the merged log is canonical if and only if it leaves no stale suffix; the truncated one always is |
| `LogMatching.CreatedIsFresh` | src/consensus/raft.py:217-223 | a leader never creates a second entry with the same term and index, nor does anyone else |
| `LogMatching.DeliverKeepsLogsIff` | src/consensus/raft.py:243-267 | a delivery keeps the log invariant if and only if no stale entry stays behind a conflict |
| `LogMatching.StepKeepsLogs` | src/consensus/raft.py:217-267 | every guarded step keeps all logs canonical |
| `LogMatching.RunKeepsLogs` | src/consensus/raft.py:217-267 | all logs are canonical after every guarded run |
| `LogMatching.LogMatchingHolds` | src/consensus/raft.py:217-267 | Log Matching (section 5.3 of the Raft paper): equal term at an index means equal logs up to it, and each index is a position, over runs with many leaders and with messages lost, late, repeated and reordered |
| `LogDivergence.LogsDiverge` | src/consensus/raft.py:260-261 | every cluster of three or more nodes has a run that keeps every vote and ends with logs that do not match |
| `TwoNodeLogs.WinnerAhead` | src/consensus/raft.py:232-237 | in a cluster of two a winner's log extends the other node's |
| `TwoNodeLogs.AcceptedGrows` | src/consensus/raft.py:243-261 | there an accepted message comes from the winner of the receiver's term and leaves a longer prefix of the winner's log |
| `TwoNodeLogs.StepKeepsTwo` | src/consensus/raft.py:118-290 | each step keeps two nodes' logs comparable and the winner's log ahead while either node is in its term |
| `TwoNodeLogs.SmallClustersMatch` | src/consensus/raft.py:217-267 | with at most two nodes Log Matching holds in every run, votes kept or not |
| `TwoNodeLogs.LogsMatchExactlyUpToTwoNodes` | src/consensus/raft.py:217-267 | Log Matching holds in all runs that keep votes if and only if the cluster has at most two nodes |
| `RepairedRaft.CutIsTruncating` | src/consensus/raft.py:257-261 | a loop that cuts the log at a conflicting entry computes the truncating rule |
| `RepairedRaft.RepairedStepKeeps` | src/consensus/raft.py:187-267 | every step of the variant with both repairs keeps votes and logs, with no guard |
| `RepairedRaft.RepairedRunsSafe` | src/consensus/raft.py:142-290 | stepping down only in the election's own term and truncating on conflict give Election Safety and Log Matching in every run |
| `SingleLeader.MergePrefixes` | src/consensus/raft.py:257-261 | merging a slice of a log into a prefix of it gives the longer of the two |
| `SingleLeader.ReceiveFollows` | src/consensus/raft.py:243-273 | a follower stays on a prefix of the leader's log with exactly entries 1 up to its commit index applied |
| `SingleLeader.RunKeeps` | src/consensus/raft.py:243-273 | the same for all followers after any run of appends, sends and deliveries in any order |
| `SingleLeader.ReplicationSafe` | src/consensus/raft.py:243-273 | any two followers agree on all entries both have committed, and of their applied lists one begins the other |
| `SingleLeader.RedeliveryIdle` | src/consensus/raft.py:243-267 | delivering a message a second time changes nothing |
| `SingleLeader.AcceptedIff` | src/consensus/raft.py:253-255 | a follower of the leader's log accepts a message of no older term if and only if it leaves no gap |
| `SingleLeader.CommitReached` | src/consensus/raft.py:243-273 | once a follower has accepted a message it has committed and applied all that the message says and reaches, for the rest of any run |
| `SingleLeader.CommitBounded` | src/consensus/raft.py:263-265 | no follower ever commits beyond what it started with and what was sent |
| `DeadlockDetection.WalkDescends` | src/consensus/raft.py:319-331 | a walk from a finished node ends at a node that finished earlier |
| `DeadlockDetection.AllFinishedAcyclic` | src/consensus/raft.py:333-337 | when every node with edges has finished, no walk returns to its start |
| `DeadlockDetection.CycleSearch.Dfs` | src/consensus/raft.py:319-331 | the recursive search terminates, keeps the stack equal to the path and the finishing order, and returns only simple cycles |
| `DeadlockDetection.DeadlockDetector.DetectCycle` | src/consensus/raft.py:316-337 | returns None if and only if the graph has no closed walk, and never while the requests served have led to a deadlock; otherwise a closed walk that passes no other node twice |
| `DeadlockDetection.DeadlockDetector.AcquireLock` | src/consensus/raft.py:299-308 | the new tables: holder, or waiter and edge |
| `DeadlockDetection.DeadlockDetector.ReleaseLock` | src/consensus/raft.py:310-314 | holder and waiters forgotten, edges kept |
| `DeadlockDetection.TablesAre` | src/consensus/raft.py:299-314 | after any requests and releases the holder of a lock is the first that asked since its last release, and its waiters are the others since then, in order |
| `DeadlockDetection.GraphIs` | src/consensus/raft.py:306-308 | the edges of a node are the holders that its requests met, in order, from the first request on |
| `DeadlockDetection.EdgeIff` | src/consensus/raft.py:299-308 | an edge from a to b is there if and only if some request of a met a lock that b held |
| `DeadlockDetection.DeadlockIff` | src/consensus/raft.py:299-314 | the tables show a circular wait if and only if the requests have led to a deadlock |
| `DeadlockDetection.DeadlockIsCycle` | src/consensus/raft.py:299-337 | every deadlock that the requests have led to is a cycle of the graph, so it is found |
| `DeadlockDetection.CircularWaitIsCycle` | src/consensus/raft.py:299-314 | in every run a circular wait among current holders and waiters is a cycle of the graph, so it is found |
| `DeadlockDetection.AcquireStaysFresh` | src/consensus/raft.py:299-308 | a request adds no stale edge |
| `DeadlockDetection.ReleaseStaysFreshIff` | src/consensus/raft.py:310-314 | a release leaves no stale edge if and only if each waiter of the lock also waits for its holder on another lock |
| `DeadlockReports.CoveredExact` | src/consensus/raft.py:316-337 | when every edge is covered by a chain of present waits, the graph is cyclic if and only if there is a circular wait |
| `DeadlockReports.AcquireKeepsCovered` | src/consensus/raft.py:299-308 | a request keeps every edge covered |
| `DeadlockReports.ReleaseStaysCoveredIff` | src/consensus/raft.py:310-314 | a release keeps every edge covered if and only if each waiter of the lock still reaches its holder through waits on other locks |
| `DeadlockReports.CycleIsCircularWait` | src/consensus/raft.py:299-314 | in runs whose releases do so, the graph is cyclic if and only if there is a circular wait |
| `DeadlockReports.CycleIsDeadlock` | src/consensus/raft.py:299-337 | in such runs the graph is cyclic if and only if the requests have led to a deadlock |
| `DeadlockReports.ReleaseFreeIsClean` | src/consensus/raft.py:299-314 | runs without releases are among them, so there the detector is exact |
| `DeadlockReports.UncoveredAlarm` | src/consensus/raft.py:299-314 | an uncovered edge from a to b becomes a false alarm as soon as b waits for a on a free lock |
| `DeadlockReports.ExactFromHereIff` | src/consensus/raft.py:299-337 | after any run, reports stay exact whatever is requested next if and only if every edge is covered or there is a circular wait already |
| `DeadlockReports.FalseAlarm` | src/consensus/raft.py:310-314 | five requests after which the graph is cyclic with no circular wait |
| `HashRings.ConsistentHashRing.BuildRing` | src/nodes/queue_node.py:35-42 | the two loops build the ring where the latest claim of a position wins |
| `RingPositions.LabelsDiffer` | src/nodes/queue_node.py:41-41 | labels of different virtual nodes are different, whatever the names of the nodes |
| `RingPositions.OnRingIff` | src/nodes/queue_node.py:35-42 | a position is on the ring with a node if and only if that node is the last listed one to claim it |
| `RingPositions.VirtualNodeOnRing` | src/nodes/queue_node.py:39-42 | every virtual node of every listed node has its position on the ring |
| `RingPositions.EachOwnsReplicas` | src/nodes/queue_node.py:35-42 | with a hash that tells labels apart each listed node has exactly `replicas` positions |
| `RingPositions.RingSize` | src/nodes/queue_node.py:35-42 | with such a hash the ring has `replicas` positions for each distinct node |
| `HashRings.ConsistentHashRing.GetNode` | src/nodes/queue_node.py:48-60 | returns the node at the next position clockwise; fails exactly on an empty ring |
| `HashRings.ConsistentHashRing.GetNodes` | src/nodes/queue_node.py:62-91 | returns exactly the first count distinct nodes met walking clockwise from the key |
| `HashRings.ConsistentHashRing.WalkTwice` | src/nodes/queue_node.py:70-91 | the two loops with their breaks compute that list |
| `HashRings.OwnerUnique` | src/nodes/queue_node.py:48-60 | a key has one owner |
| `HashRings.PreferenceFacts` | src/nodes/queue_node.py:62-91 | a preference list names every node on the ring once, the owner of the key first |
| `HashRings.ReplicaList` | src/nodes/queue_node.py:62-91 | a replica list has min(count, nodes on the ring) distinct nodes and starts with the node that owns the key |
| `RingPositions.PreferenceInOrder` | src/nodes/queue_node.py:70-91 | of two nodes of a preference list the earlier one has a position that the walk meets before all positions of the later one |
| `HashRings.AddingMovesOnlyToNew` | src/nodes/queue_node.py:35-60 | adding a node anywhere in the list moves keys only to it, whatever the hash |
| `HashRings.RemovingMovesOnlyItsKeys` | src/nodes/queue_node.py:35-60 | removing a node moves only the keys it owned, whatever the hash |
| `HashRings.PreferenceWithout` | src/nodes/queue_node.py:62-91 | removing a node that hides no other filters it out of every preference list |
| `HashRings.ReplicasStable` | src/nodes/queue_node.py:35-91 | with a collision-free hash, removing a node filters it out of every preference list, and every replica list keeps its other members |
| `RingCollisions.InsertSame` | src/nodes/queue_node.py:62-91 | a new position for the node that owns it already changes no preference list |
| `RingCollisions.RemovalFiltersIff` | src/nodes/queue_node.py:35-91 | for any hash, removing a node filters it out of every preference list and changes nothing else if and only if, wherever it hides a node, the next other node clockwise is the hidden one |
| `HashRings.HiddenNodeAppears` | src/nodes/queue_node.py:39-42 | with a collision a removal can bring a new node into a preference list |
| `DurableQueues.DistributedQueue.Enqueue` | src/nodes/queue_node.py:125-176 | exact new queue, log and counters, other queues untouched, one Raft entry on a leader, and no failure; keeps enqueued + recovered = dequeued + waiting |
| `DurableQueues.DistributedQueue.TryDequeue` | src/nodes/queue_node.py:178-211 | one pass of the polling loop: unknown queue, end of time, nothing yet, or the oldest message, whose id is recorded; keeps the conservation of counts |
| `DurableQueues.DistributedQueue.PersistMessage` | src/nodes/queue_node.py:243-253 | appends the record of the message to the log of its queue and to no other |
| `DurableQueues.DistributedQueue.RecoverUnacknowledged` | src/nodes/queue_node.py:255-281 | puts back exactly the logged messages whose id is not acknowledged, in log order; keeps the conservation of counts |
| `DurableQueues.DistributedQueue.RestoreAll` | src/nodes/queue_node.py:260-278 | the recovery loop does so record by record |
| `DurableQueues.FirstInFirstOut` | src/nodes/queue_node.py:144-207 | in crash-free runs the delivered messages followed by those waiting are those that entered, in order |
| `DurableQueues.RunFaithful` | src/nodes/queue_node.py:125-281 | in every run, whether messages are persisted or not, nothing is logged, delivered or waits that was not produced |
| `DurableQueues.RecoverRestoresIff` | src/nodes/queue_node.py:255-281 | a recovery makes up for every loss, copies counted, if and only if no copy of a message with an acknowledged id is missing |
| `DurableQueues.AtLeastOnce` | src/nodes/queue_node.py:125-281 | at-least-once over any run with crashes: with persistence on and distinct ids, of each record as many copies were delivered or wait as were produced, once the queue is recovered |
| `DurableQueues.UnackedCount` | src/nodes/queue_node.py:260-278 | a recovery puts back every copy of the records whose id is not acknowledged, and no other |
| `DurableQueues.AtLeastOnceIff` | src/nodes/queue_node.py:134-134 | no run can lose one of the produced messages if and only if no two of them share an id |
| `DurableQueues.MessageIdTells` | src/nodes/queue_node.py:134-134 | equal ids mean the same producer and the same millisecond |
| `DurableQueues.AtLeastOnceByClock` | src/nodes/queue_node.py:134-134 | no run can lose one of the produced messages if and only if no producer enqueues twice within a millisecond |
| `DurableQueues.LogIsPersisted` | src/nodes/queue_node.py:166-168 | in every run the log holds the records of exactly the messages enqueued to persist, in order |
| `DurableQueues.ComesBack` | src/nodes/queue_node.py:243-272 | a message that goes through the log comes back as it was, but for the form of its content |
| `DurableQueues.UnackedPositions` | src/nodes/queue_node.py:260-278 | recovered messages come back in the order of the log, one for each record whose id is not acknowledged |
| `DurableQueues.RecoverDuplicatesIff` | src/nodes/queue_node.py:260-278 | a recovery creates no duplicate if and only if it starts with an empty queue |
| `DurableQueues.ExactlyOnce` | src/nodes/queue_node.py:255-281 | with distinct ids and recoveries on empty queues only, each message is delivered at most once and none is lost |
| `MesiCaches.MESICache.EvictLru` | src/nodes/cache_node.py:55-61 | removes the least recently used line if the cache is full |
| `MesiCaches.MESICache.Read` | src/nodes/cache_node.py:63-85 | exact new order, lines, value and counters of a read |
| `MesiCaches.MESICache.Write` | src/nodes/cache_node.py:87-130 | exact new order, lines, state, counters and pending invalidations of a write; fails exactly when there is nothing to evict |
| `MesiCaches.MESICache.WriteLine` | src/nodes/cache_node.py:93-130 | the same for the part that follows the eviction |
| `MesiCaches.MESICache.InvalidateOthers` | src/nodes/cache_node.py:132-142 | one pending invalidation list: all other nodes in order |
| `MesiCaches.MESICache.OnInvalidate` | src/nodes/cache_node.py:144-168 | invalidates shared and exclusive lines only; true also for an absent key |
| `MesiCaches.MESICache.TransitionToExclusive` | src/nodes/cache_node.py:175-187 | only from shared |
| `MesiCaches.MESICache.TransitionToModified` | src/nodes/cache_node.py:189-203 | only from exclusive |
| `MesiCaches.MESICache.UpdateSharedState` | src/nodes/cache_node.py:170-173 | changes the sharers of a present line and nothing else |
| `MesiCaches.RunWellFormed` | src/nodes/cache_node.py:55-130 | in every run the order lists the keys of the lines once each, at most cache_size of them |
| `MesiCaches.TouchOrderHolds` | src/nodes/cache_node.py:63-130 | in every run the map order is the order of last touches |
| `MesiCaches.StillResident` | src/nodes/cache_node.py:55-130 | a key is resident while fewer than cache_size - 1 other keys were touched since its own last touch |
| `MesiCaches.LaterIsOthers` | src/nodes/cache_node.py:63-130 | the keys behind a resident key in the map order are exactly those touched since it was |
| `MesiCaches.GoneAfterOthers` | src/nodes/cache_node.py:55-130 | a key that was evicted had at least cache_size - 1 others touched since, or cache_size if no write wasted a line |
| `MesiCaches.ExactThroughoutIff` | src/nodes/cache_node.py:87-101 | resident are exactly the keys with fewer than cache_size others touched since, throughout a run, if and only if the run never writes a present key into a full cache, save the one due for eviction |
| `MesiCaches.OneLessThanUsual` | src/nodes/cache_node.py:87-101 | that bound is tight: rewriting a present key throws another one out of a cache of two |
| `MesiCaches.HitsAreFresh` | src/nodes/cache_node.py:63-168 | in every run a hit returns the value of the latest put, and none from before an invalidation that took effect |
| `MesiCaches.HitsIff` | src/nodes/cache_node.py:63-85 | a read hits if and only if the key is resident and was not invalidated since its latest put, and returns the value of that put |
| `MesiCaches.StatesHold` | src/nodes/cache_node.py:87-203 | in every run a resident line is in the state that the puts, invalidations and transitions of its key lead to |
| `MesiCaches.OwnersHold` | src/nodes/cache_node.py:87-203 | in every run modified lines are owned by the node, and invalid ones have neither owner nor value |
| `MesiCaches.SharersHold` | src/nodes/cache_node.py:102-203 | in every run the sharers of a resident line are what was last set, none after a local put or a move to modified, and include the sender after a remote put |
| `MesiCaches.RemoteWrite` | src/nodes/cache_node.py:111-118 | a remote write keeps owner and other sharers and adds its writer once |
| `MesiCaches.NewRemoteLine` | src/nodes/cache_node.py:93-118 | a line made by a remote write is shared, without owner, and its writer is the one sharer |
| `MesiCaches.ReadsCounted` | src/nodes/cache_node.py:73-75 | the access count of a line is the number of reads since it was made |
| `MesiCaches.OwnWriteStays` | src/nodes/cache_node.py:87-203 | a resident local write stays modified and keeps value and owner through invalidations and transitions |
| `MesiCaches.LocalWriteSurvives` | src/nodes/cache_node.py:63-203 | reads return a local write until the next put of its key, while the residency bound holds |
| `LockManagers.DistributedLockManager.ReleaseLock` | src/nodes/lock_manager.py:148-193 | exact new tables, log and outcome of a release, the failing list removal included |
| `LockManagers.DistributedLockManager.TryOnce` | src/nodes/lock_manager.py:73-142 | one pass of the acquire loop: exact new tables, log and outcome |
| `LockManagers.DistributedLockManager.ContinueAcquire` | src/nodes/lock_manager.py:73-146 | the loop from one sleep to the next, at any clock readings |
| `LockManagers.DistributedLockManager.AcquireLock` | src/nodes/lock_manager.py:53-146 | a call up to its first sleep or its end; nothing happens on a node that is not leader; counts the grant or the timeout |
| `LockManagers.DistributedLockManager.CleanupExpiredLocks` | src/nodes/lock_manager.py:231-239 | collects the locks found expired, each at its own reading of the clock, and releases each for its owner; on a leader exactly these are gone, and no entry is missing when its turn comes |
| `LockManagers.AttemptsAreRun` | src/nodes/lock_manager.py:73-142 | a stretch of the acquire loop is a run of single attempts |
| `LockManagers.CleanUpIsRun` | src/nodes/lock_manager.py:231-239 | a cleanup is a run of single expiries |
| `LockManagers.CleanUpRemovesExpired` | src/nodes/lock_manager.py:231-239 | a cleanup on a leader removes exactly the locks found expired and changes no other |
| `LockManagers.ExpiredNeverBlocks` | src/nodes/lock_manager.py:114-118 | a requester that meets an expired lock on a leader is granted it at its next reading of the clock or times out, and never sleeps on it |
| `LockManagers.HeldUntilFreed` | src/nodes/lock_manager.py:73-193 | a held lock gets free if and only if its owner on record releases it or it is found expired, on a leader; until then an exclusive entry is unchanged |
| `LockManagers.GrantsDoNotOverlap` | src/nodes/lock_manager.py:73-239 | over all interleavings, between two grants of a lock of which one is exclusive there is such a release or expiry, and until it the exclusive holder is on record |
| `LockManagers.TableAgreesWithLog` | src/nodes/lock_manager.py:73-193 | at every point of a run acquires and releases of a lock alternate in the Raft log, and a lock is in the table if and only if its last command is an acquire, of its type, and of its owner when exclusive |
| `LockManagers.StepKeepsOwnersIff` | src/nodes/lock_manager.py:121-133 | a step makes table and log disagree on an owner if and only if it grants a shared lock over another owner |
| `LockManagers.StepKeepsIndexIff` | src/nodes/lock_manager.py:95-133 | a step breaks the index of locks by owner if and only if it grants a shared lock over another owner |
| `LockManagers.IndexedThroughoutIff` | src/nodes/lock_manager.py:95-178 | the index is exact throughout a run if and only if the run has no such grant |
| `LockManagers.ExclusiveRunsIndexed` | src/nodes/lock_manager.py:95-178 | with exclusive locks only, each lock is listed once for its owner and not at all for others, and no release fails on the list |
| `LockManagers.FailedReleaseTakesEffect` | src/nodes/lock_manager.py:173-193 | a run with shared locks after which a release reports failure although lock and log changed, and the next waiter is not woken |
| `LockManagers.WokenInOrder` | src/nodes/lock_manager.py:135-188 | waiters are woken in the order in which they queued up: those woken followed by those waiting are those who queued up |
| `LockHistories.HeldIff` | src/nodes/lock_manager.py:73-193 | a lock is in the table if and only if the latest grant of it has neither been released by its requester nor, once its time is up, been looked at on a leader; the entry is what that request asked for |
| `LockHistories.FreeAttempt` | src/nodes/lock_manager.py:75-109 | an attempt on a lock without such a grant is granted on a leader and refused elsewhere |
| `LockHistories.HeldAttempt` | src/nodes/lock_manager.py:111-142 | an attempt on a held lock comes again at once when the time of the grant is up; before that it is granted when both are shared and waits otherwise |
| `LockHistories.ReleaseAnswers` | src/nodes/lock_manager.py:155-193 | which answer a release gets: not leader, not found, not owner, or success with the first waiter woken |
| `LockHistories.ExclusiveGrantLasts` | src/nodes/lock_manager.py:73-193 | an exclusive lock is its requester's until a release by it or a look at it after its time to live, and is free after that |
| `LockHistories.NextGrantAfterEnd` | src/nodes/lock_manager.py:73-239 | between an exclusive grant and the next grant there is a release by its requester, or a look at the lock later than its time to live |
| `LockHistories.LogIsHistory` | src/nodes/lock_manager.py:85-96 | the log holds one acquire for each grant of a free lock and one release for each end of a grant, in the name of its requester, in order |
| `LockHistories.EndWakesOldest` | src/nodes/lock_manager.py:182-188 | in exclusive runs a step that frees a lock while someone waits wakes the one who has waited longest |

## Left out

- Transport, HTTP, timers, metrics and logging: delivery, election timeouts and clock readings are free
  choices of a run.
- Heartbeats: a heartbeat step may carry any sender and any term, because `src/nodes/base_node.py:151-175`
  sends them from nodes that are not leader too. That handler's own copy of term and vote is not modelled.
- Cluster configuration: all nodes know the same set of nodes, in any order and with repeated names
  allowed. Only the runs that show two leaders or diverging logs ask for lists without repetition.
- In clusters: leaders made without votes (`/force-leader`, elections without a transport while peers
  exist) and node restarts, which would lose term and vote.
- Leader completeness and safety of state machines across leaders: the repository has no leader-side
  commit, so nothing in it decides which entries are committed.
- The sender of append-entries: the repository has none. The model sends any slice of a leader's log.
- Entry indices are natural numbers, since only `append_entry` creates entries. The `committed` flag of an
  entry is written nowhere and left out.
- Entry 0 is never applied and a commit on an empty log sets the commit index to -1, as in the code.
- A Raft log entry written by the queue or the lock manager keeps the fields that matter here and drops
  content, ttl and timestamp.
- DurableQueues.DistributedQueue.Enqueue: the log entry is written before the message joins the queue,
  since here the message is a value whose persisted flag is set first; nothing can come between the two.
  Its failure branch and counter are not reached, because a leader never refuses an entry; a content whose
  string form raises an error is left out.
- DurableQueues.DistributedQueue.TryDequeue: the polling loop gives way at each sleep, so it is modelled
  pass by pass.
- A crash keeps the persistence log and the acknowledged ids and loses the queues, as the design asks;
  the repository keeps all three in memory.
- Recovered messages carry the string form of their content, so messages are compared up to that form.
- Cache lines are values: changing a line through a reference handed out by a getter is not captured, and
  neither are line timestamps.
- Coherence between caches of several nodes: two nodes can both hold a modified line, because an
  announced invalidation is only recorded and modified lines refuse it.
- Lock manager: each attempt reads the clock once, and so does the cleanup for each key. The order in
  which the dictionary lists its keys is a parameter. Woken waiters and retries are attempts that a run
  may contain at any time. The Raft log is append-only while the manager runs; leadership may come and
  go. A lock type that is neither shared nor exclusive is left out.
- Sharers other than the last one are forgotten by the code, so exclusion holds against the owner on
  record only.
- `check_deadlock` calls a method that the detector does not have, and `replicate_message` only counts
  its targets; both are left out.
- The hash is any function from strings to integers; MD5 is not modelled.
