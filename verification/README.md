# MiniDB, verified

MiniDB is a replicated key-value store made of small stateful classes. This project models
the parts of it that have to be right together, and proves what they keep over every run:

- the election and log protocol of a cluster (`Election.dfy`, `ElectionProtocol.dfy`): terms,
  votes, AppendEntries and the commit rule, in the manner of Ongaro and Ousterhout, "In Search
  of an Understandable Consensus Algorithm" (2014), sections 5.2 to 5.4; what later leaders
  keep (`LeaderCompleteness.dfy`), when state machines agree (`StateMachineSafety.dfy`), and
  two runs in which promises fail (`ElectionLimits.dfy`);
- the key-value table, its log lines and the conflict rule by which updates enter it
  (`Storage.dfy`);
- the prepare/commit write path, quorum reads and read repair (`Replication.dfy`,
  `WritePath.dfy`, `AckedWrites.dfy`, `ReadPath.dfy`, `LeaderWrite.dfy`);
- the consistent-hash ring and the migration of keys (`HashRing.dfy`, `Migration.dfy`);
- the append-only log and the snapshots as files (`Persistence.dfy`), and runs with crashes,
  unsynced lines and recovery (`CrashRecovery.dfy`);
- Merkle trees and their comparison (`Merkle.dfy`);
- the token bucket and the sliding window (`RateLimiter.dfy`).

`Common.dfy` holds option values, node names, the tuple order of versions, and quorum counting.

## How the model relates to the program

A class of the program is a class here, with the same fields and the same branches and loops in
its methods. Each method is proved equal to a specification function (or to a relation on the
state before and after), and the theorems are about those functions; what a caller sees is also
stated on the fields, without those functions. Every lock-protected method body is one atomic
step. What spans several nodes is a state machine over such steps: messages may be lost,
delayed, reordered and repeated in the election protocol; a call to a follower on the write
path is processed within the call or never, and its reply may be lost. A write as a whole is
therefore a sequence of machine steps, for other nodes act between its calls; `LeaderWrite.dfy`
gives it as the method it is in the program and shows that both agree when nothing comes
between.

The network, clocks, the order in which a dictionary is iterated and the results of remote
calls are parameters. Times and tokens are reals. The two ring hashes and the Merkle hash are
arbitrary functions; sorting, bisection and maximum of the standard library are functions.

Assumptions. Election protocol: constant membership, no restarts; a reply to AppendEntries is
kept together with the last position of the request it answers, which its sender knows. Write
path and reads: one leader for the whole run, the members are exactly the replica set, the
leader's clock strictly increases and is positive, no expiry; node names are not empty.
Persistence: a crash keeps a whole-line prefix of the log that covers the lines forced to
stable storage, and every other file as it is; what a restart finds in the log stays there; log
lines carry versions of at least 1 (the write path only produces such, as
`WritePath.NoValueWithoutPrepareQuorum` and its invariant show); no expiry, and no write during
a snapshot-and-compact cycle. Merkle: keys contain no colon, and the strings actually hashed do
not collide.

## Where the code and its promises part

- A QUORUM or ALL read counts a failed remote call as the response "not found, version 0"
  (`minidb/cluster/read_coordinator.py:302-312`), so a read can report "absent" for an
  acknowledged write. `ReadAfterWrite.FreshExactlyWhenQuorumAnswers` gives the exact condition:
  the leader is among the members that were reached, or they and the write quorum together
  outnumber the members. `ReadAfterWrite.StaleReadPossible` builds the failing run.
- `commit_index` is capped by the length of the follower's log, not by the last entry the message
  covers (`minidb/cluster/election.py:379-382`). `ElectionLimits.StateMachinesCanDiverge` is a
  three-node run in which two nodes apply different entries at the same position. A delivery
  commits only entries of the leader if and only if the new commit index stays within what the
  message covers or the two logs have the same term there
  (`StateMachineSafety.CommitsLeadersEntriesExactly`); the first holds whenever the sender
  ships a commit index that its message covers (`StateMachineSafety.CoveredCommitIsVouched`).
  Runs in which every delivery meets the condition, and in which leaders count only what
  followers took over from them, never apply different entries at one position
  (`StateMachineSafety.AppliedNeverDiverge`).
- The commit scan stops at a match index past the leader's log. It picks the greatest committable
  index exactly when fewer than a majority of the match indices, with its own log length, are
  past its log, or nothing is committable (`Election.CommitRuleExactly`). Followers with longer
  logs do report such indices, and in `ElectionLimits.OverreportStallsCommit`, a run, the
  leader then commits nothing.
- Replica-set, import, repair and migration lines are not forced to stable storage
  (`minidb/node.py:1003`, `1053`, `1182` and `1458`), so a crash may lose them. It recovers the
  memory if and only if every key with a lost line is harmless: the snapshot and the kept lines
  give it the same item as all lines do (`CrashRecovery.CrashRecoversMemoryExactly`). Synced
  lines always show or are superseded (`CrashRecovery.SyncedLinesShow`).
- A snapshot can be ahead of the lines a crash keeps. It then keeps writes whose log lines were
  lost while replay takes other keys back to older lines, so what is recovered was never the
  table at any one time (`CrashRecovery.SnapshotAheadMixesTimes`, a run). Recovery is the
  replay of a prefix of the history exactly when the surviving lines mention every key of the
  snapshot or no log is left (`CrashRecovery.DurablePrefix`).
- A crash between the two renames of a compaction is survived, but it leaves no log, and a second
  crash between the two renames of the next snapshot then loses everything
  (`CrashRecovery.SecondCrashCanLoseEverything`). Later crashes are harmless after a restart
  exactly when the log alone gave what was recovered (`CrashRecovery.CrashSafeExactly`); when
  every line was synced, exactly when a log file was left or the memory was empty
  (`CrashRecovery.CrashSafeExactlyWithLog`).
- Comparing a non-empty Merkle tree with an empty one reports nothing
  (`Merkle.CompletenessExactly`). A key that only the second table holds is reported when it
  lies inside the range of a bucket of the first (`Merkle.SecondOnlyReported`), and between
  tables of equally many buckets only then (`Merkle.SecondOnlyExactly`); in the gap between two
  buckets it can be missed (`Merkle.GapKeyMissed`), and outside all of them it always is
  (`Merkle.NothingReportedOutside`). With colons in keys two different tables can have the same
  tree (`Merkle.ColonsHideDifferences`).
- Reads detect inconsistency by the version alone (`minidb/cluster/read_coordinator.py:186-188`),
  and failed writes leave version numbers to be used again, so a result that ranks below the
  best can go unrepaired. `ReadPath.StaleRepairedExactly` says when.
- Writes go through the elected leader (`minidb/node.py:439-455`), although the repository's
  documentation speaks of a primary owner.

## Model

| member | source | states |
|---|---|---|
| Election.ElectionManager.BeginElection | minidb/cluster/election.py:171-181 | starting an election raises the term by one, makes the node a candidate that voted for itself, and hands out its last log index and term |
| Election.ElectionManager.EndElection | minidb/cluster/election.py:183-218 | the node becomes leader, and knows itself as such, exactly if it is still a candidate of the same term and more than half of the cluster voted for it; term, vote and log stay |
| Election.ElectionManager.Heartbeat | minidb/cluster/election.py:220-252 | a heartbeat of an old term changes nothing; any other makes the node a follower of the sender in its term, with the sender as the known leader, and clears the vote exactly if the term is newer; the log stays |
| Election.ElectionManager.Resign | minidb/cluster/election.py:254-271 | only a leader steps down, then as a follower that knows no leader, and it keeps term, vote and log |
| Election.ElectionManager.VoteRequest | minidb/cluster/election.py:273-315 | new state and answer of a vote request: old terms refused, newer terms adopted, one vote per term, only for an up-to-date log; the known leader and the log stay |
| Election.ElectionManager.ProposeEntry | minidb/cluster/election.py:317-340 | a leader appends one entry with the given command, key and value, its term and the next index, and nothing else changes; anyone else appends nothing |
| Election.ElectionManager.AppendEntries | minidb/cluster/election.py:342-384 | an old term changes nothing; any other makes the node a follower of the sender; after a success the commit index is the lesser of the leader's and the log's length, unless that would not raise it, and everything up to it is applied in order; the loop absorbs the entries as specified |
| Election.ElectionManager.ApplyCommittedEntries | minidb/cluster/election.py:386-397 | the callback gets the log entries between last_applied and commit_index, once each and in order |
| Election.ElectionManager.CommitFrom | minidb/cluster/election.py:399-427 | the loop over the sorted match indices computes the new commit index of the specification; if that is new, everything up to it is applied in order, and otherwise nothing changes |
| Election.CommitRuleExactly | minidb/cluster/election.py:399-427 | with ordered log terms the scan picks the greatest index past the old one that a majority holds in the current term, or stays when there is none, if and only if fewer than a majority of the match indices are past the log or nothing is committable |
| Election.CommitRule | minidb/cluster/election.py:399-427 | in particular it does for match indices within the log, and then stays at the old index exactly when nothing is committable |
| ElectionLimits.OverreportStallsCommit | minidb/cluster/election.py:406-421 | a reachable leader of term 4 whose two followers answered with match index 3, past its log of two entries: its scan commits nothing although index 2 is committable |
| Election.AbsorbAllShape | minidb/cluster/election.py:368-377 | the entry loop keeps a log that already agrees with all entries, tail included, and otherwise cuts it at the first disagreement or its end and takes the rest |
| Election.AppendAnswer | minidb/cluster/election.py:352-384 | success exactly when the term is not old and the predecessor matches, and then the log has every sent entry, by term, within the reported match index; a refused predecessor yields a match index before it at which the log ends |
| Election.DeliveryCommits | minidb/cluster/election.py:379-397 | a success takes over the leader's commit index as far as the log goes and applies every entry up to it that was not applied; no other answer commits or applies anything |
| Election.DeliveryFollows | minidb/cluster/election.py:352-366 | an old term changes nothing and is answered with match index 0; otherwise the sender is followed, a missing predecessor leaves the log alone, and a conflicting one cuts it right before |
| Election.AbsorbPlaces | minidb/cluster/election.py:368-377 | a single entry of whatever index is dropped if the log has its term there, and otherwise ends the log right behind what precedes its index |
| Election.VoteGrantedExactly | minidb/cluster/election.py:273-315 | a vote is granted exactly when the term is not old, no other candidate holds the vote in it, and the candidate's last term and length are at least this log's; what happens to term, vote and role otherwise, and that leader and log stay |
| Election.UpToDateOrder | minidb/cluster/election.py:305-315 | of any two logs one is up to date for the other, transitively |
| Election.AppendKeepsCommitted | minidb/cluster/election.py:342-397 | AppendEntries keeps the committed prefix, the commit index and the applied record if and only if the message does not conflict with a committed entry |
| Election.AppliedExactlyOnce | minidb/cluster/election.py:171-427 | over any sequence of operations without such a conflict the applied entries are exactly the first last_applied log entries, last_applied <= commit_index <= log length, and none of these ever goes back |
| ElectionProtocol.MajorityIsUnique | minidb/cluster/election.py:183-218 | two candidates of one term cannot both hold a majority of ballots, for any cluster size |
| ElectionProtocol.ElectionSafety | minidb/cluster/coordinator.py:204-256 | over every run no two nodes are ever leaders of the same term, not even at different times |
| ElectionProtocol.LogMatching | minidb/cluster/election.py:317-384 | if the logs of any two nodes at any two times hold entries of one term at one position they are equal up to it, and position k always carries index k + 1 |
| ElectionProtocol.TermsOnlyGrow | minidb/cluster/election.py:171-303 | no node's term ever decreases over a run |
| ElectionProtocol.LeaderAppendsOnly | minidb/cluster/election.py:317-384 | while a node is leader of one term its log is only appended to, over a whole run |
| ElectionProtocol.CommitRuleAlways | minidb/cluster/election.py:399-427 | on every leader of every run, for any match indices, the scan picks the greatest committable index exactly under that condition |
| LeaderCompleteness.LaterLeadersHaveChosen | minidb/cluster/election.py:183-384 | in every run an entry that a majority took over from the leader of its own term is, with everything before it, in the log of every later leader of a higher term |
| StateMachineSafety.CommitsLeadersEntriesExactly | minidb/cluster/election.py:342-384 | for any message sent and any receiver, a delivery that moves the commit index commits exactly entries of the leader's log if and only if the index stays within what the message covers or the logs have the same term there |
| StateMachineSafety.CoveredCommitIsVouched | minidb/cluster/election.py:379-382 | a sender meets that condition at every receiver by shipping a commit index that its message covers |
| StateMachineSafety.AppliedNeverDiverge | minidb/cluster/election.py:342-427 | over every run whose deliveries meet the condition and whose leaders count only positions that followers took over from them, what any two nodes have applied at any two times agrees position by position |
| ElectionLimits.StateMachinesCanDiverge | minidb/cluster/election.py:379-382 | a reachable three-node state in which two nodes applied different entries at the same position |
| Storage.KVStore.Set | minidb/storage/kv_store.py:67-115 | every field of the stored item: given metadata wins, a missing or zero version means one more than before, missing creation time and coordinator are inherited; other keys stay |
| Storage.KVStore.Delete | minidb/storage/kv_store.py:152-169 | the key is gone, and the result says whether it was there |
| Storage.KVStore.LoadData | minidb/storage/kv_store.py:241-264 | a loaded snapshot overrides the table key by key and keeps the rest |
| Storage.DatabaseNode.ApplyLogEntry | minidb/node.py:1115-1150 | a SET leaves the entry's own value, version, times and coordinator under its key, without looking at what was there, and a DELETE nothing; the same goes into exactly one log line, and the log still replays to the table |
| Storage.DatabaseNode.HandleReplicaSet | minidb/node.py:953-1013 | an item is refused exactly if the stored one has a higher version, at equal versions a later time, or at equal both a coordinator that comes later; else the table holds just that item, it is logged, and the log still replays to the table |
| Storage.DatabaseNode.ApplyRepairData | minidb/node.py:1157-1191 | as above for repair, with a missing update time taken from the clock and a missing creation time from the update time |
| Storage.DatabaseNode.HandleImportKeys | minidb/node.py:1015-1100 | a bulk import equals delivering its entries one by one through the conflict rule; exactly those that meet a later write are counted as skipped, the others as imported; what it stores of its own keys is passed on to the other replicas |
| Storage.FanOutExactly | minidb/node.py:1064-1100 | exactly the imports that are stored under keys this node owns are passed on, as replica-set messages to every replica of the key but itself, with value, version and times as stored |
| Storage.DeliverDecides | minidb/node.py:977-1003 | what a replica-set, import or repair message leaves, field by field |
| Storage.DatabaseNode.DeleteMigratedKeys | minidb/node.py:1452-1464 | exactly the given keys disappear, and the log still replays to the table |
| Storage.DeliveryReachesMaximum | minidb/node.py:953-1063 | after any sequence of replica-set, import and repair messages each key holds the highest-ranked of its first item and the items sent for it |
| Storage.Convergence | minidb/node.py:1157-1191 | two nodes that start alike and receive the same updates, by any mix of messages in any order with any repetition, end with the same table |
| Ordering.FirstDifferenceDecides | minidb/node.py:1330-1336 | of two writes the version decides, then the update time, then the coordinator's name, character by character |
| Replication.ReplicationManager.Replicate | minidb/cluster/replication.py:88-180 | ALL and STRONG succeed exactly if the calls that came back and the leader's copy make the replication factor, QUORUM if they make more than half of it; every target is called once in order unless they are too few; the pending table is left as it was, ONE and ANY only queue |
| Replication.ReplicationManager.Acknowledge | minidb/cluster/replication.py:182-199 | one acknowledgement is counted for a pending request, and success turns true when the required number is reached; unknown indices change nothing |
| Replication.ClusterCoordinator.HandlePrepare | minidb/cluster/coordinator.py:394-403 | prepare stages the entry under its index and leaves the table untouched |
| Replication.ClusterCoordinator.HandleCommit | minidb/cluster/coordinator.py:404-416 | what is staged under the index, or else the entry the commit carries, is stored as a SET or erased as a DELETE, and unstaged |
| Replication.ClusterCoordinator.RequestVotes | minidb/cluster/coordinator.py:204-230 | one vote for the node itself and one for each other peer whose call came back with a vote |
| Replication.ClusterCoordinator.CommitToFollowers | minidb/cluster/coordinator.py:304-332 | the number of commit calls that came back successful |
| LeaderWrite.LeaderNode.ApplyPartitionWrite | minidb/node.py:496-589 | exactly which refusal or failure a write meets; after an acknowledged SET the key holds the client's value at one version more, with the leader's clock and name, and after a DELETE nothing, all other keys as before and one log line; otherwise table and log are as before and only a write number is used up |
| LeaderWrite.LeaderNode.Settle | minidb/node.py:565-589 | acknowledged exactly when the prepare calls and then the commit calls that came back, with the leader's copy, make all copies for ALL and STRONG or more than half for QUORUM, and otherwise which of the two failed |
| LeaderWrite.MachineAgrees | minidb/node.py:524-589 | from every reachable idle state and for every fate of the calls, the steps of the machine issue the client's write, acknowledge under the same condition and apply it at the leader exactly then |
| WritePath.NoValueWithoutPrepareQuorum | minidb/cluster/coordinator.py:265-332 | in every run whatever a replica stores is field by field an issued SET that enough distinct followers staged for the consistency level, and whatever is staged under an index is the entry issued under it |
| WritePath.WritesCarryRequests | minidb/node.py:529-548 | over every run each issued write carries the key, command and value of the request that issued it, the clock and version of that moment, and the leader's name |
| WritePath.CommitAppliesIssued | minidb/cluster/coordinator.py:404-416 | in every reachable state a commit applies exactly the issued entry, staged or not |
| AckedWrites.OrderedKept | minidb/node.py:496-563 | every new write outranks all earlier writes of its key, although failed writes leave their version to be used again |
| AckedWrites.AckedWritesStay | minidb/node.py:524-589 | from its acknowledgement on, the leader and the required number of members hold an acknowledged SET or something that outranks it, despite failed writes and repairs |
| AckedWrites.AckedCopies | minidb/node.py:570-585 | in a run of SETs, from an acknowledgement on, the leader holds that write or a later one of its key just as issued; so do all members for ALL and STRONG, and more than half of them for QUORUM |
| AckedWrites.SameRankSameWrite | minidb/node.py:530-548 | an item that ranks like an issued SET is that write, value and all |
| AckedWrites.LeaderIsLedger | minidb/node.py:496-589 | with SETs and DELETEs and no repair of the leader, the leader's table is always the acknowledged writes applied in order; failed writes leave no trace |
| ReadPath.ReadCoordinator.ReadFromReplicas | minidb/cluster/read_coordinator.py:317-347 | the results are the local one and a prefix of the replies, ending at the first reply that makes them enough |
| ReadPath.ReadCoordinator.TriggerReadRepair | minidb/cluster/read_coordinator.py:349-377 | one repair call for each result that is older than the best, in order |
| ReadPath.RepairsInOrder | minidb/cluster/read_coordinator.py:349-377 | the calls for a list of results are those for its parts one after the other, one for a result that is older than the best and none for any other |
| ReadPath.ReadCoordinator.Conclude | minidb/cluster/read_coordinator.py:164-229 | the outcome by version, time and coordinator of the results: failed, absent, or the first result that no present one is newer than; counters and repair calls exactly if a result is missing or of another version |
| ReadPath.ReadCoordinator.ReadQuorum | minidb/cluster/read_coordinator.py:156-196 | a QUORUM read fails exactly if the results are at most half of the replication factor, stops gathering at the least majority, answers with the newest result, and repairs exactly if a result is missing or of another version |
| ReadPath.ReadCoordinator.ReadAll | minidb/cluster/read_coordinator.py:198-229 | an ALL read does the same and fails exactly if there are fewer results than the replication factor |
| ReadPath.SelectedIsNewest | minidb/cluster/read_coordinator.py:164-196 | a read fails exactly when too few results came, is absent exactly when none is present, and otherwise returns a present result that no other outranks |
| ReadPath.RepairsReachTheStale | minidb/cluster/read_coordinator.py:349-377 | repair goes to exactly the nodes whose result ranks below the best and carries the best item unchanged |
| ReadPath.StaleRepairedExactly | minidb/cluster/read_coordinator.py:164-196 | a result that ranks below the selected one is sent the selected item if and only if some gathered result is absent or has another version |
| ReadAfterWrite.ReadSeesAckedWrite | minidb/cluster/read_coordinator.py:156-196 | once a SET is acknowledged, a later quorum read returns it, value and all, or a later write of its key, if the leader answered or the answering members and a write quorum outnumber the members |
| ReadAfterWrite.ReadAllSeesAckedWrite | minidb/cluster/read_coordinator.py:198-229 | under the same condition an ALL read returns the write or a later one |
| ReadAfterWrite.StaleReadPossible | minidb/cluster/read_coordinator.py:284-315 | in every other case a reachable run and a full quorum of responses that report an acknowledged key absent |
| ReadAfterWrite.FreshExactlyWhenQuorumAnswers | minidb/cluster/read_coordinator.py:156-196 | reads answered by a given set of members see every acknowledged write in every run if and only if the leader is among them, or they are half of the members for QUORUM writes, or one for ALL and STRONG writes |
| ReadAfterWrite.QuorumOfAnswersSuffices | minidb/cluster/read_coordinator.py:156-196 | genuine answers from more than half of the members always suffice |
| HashRing.ConsistentHashRing.AddNode | minidb/sharding/consistent_hash.py:41-63 | adding inserts the node's virtual nodes in order, once; a known node changes nothing; the ring stays canonical |
| HashRing.ConsistentHashRing.RemoveNode | minidb/sharding/consistent_hash.py:65-84 | removing takes away exactly the node's points; the ring stays canonical |
| HashRing.ConsistentHashRing.Lookup | minidb/sharding/consistent_hash.py:110-142 | the cyclic walk with its seen-set returns the first count distinct nodes of the key's preference order |
| HashRing.ConsistentHashRing.Owner | minidb/sharding/consistent_hash.py:86-108 | bisection with wrap-around returns the owner of a key |
| HashRing.BuildIsCanonical | minidb/sharding/consistent_hash.py:41-84 | after any sequence of additions and removals the ring is the sorted list of the virtual nodes of the current node set, duplicates counted |
| HashRing.RingPoints | minidb/sharding/consistent_hash.py:55-61 | such a ring holds a point as often as its node, if a member, has virtual nodes of that hash, numbered from 0 |
| HashRing.RingForgetsHistory | minidb/sharding/consistent_hash.py:41-84 | two histories with the same resulting node set give the same ring |
| HashRing.AddThenRemove | minidb/sharding/consistent_hash.py:41-84 | removing a node that was just added restores the ring |
| HashRing.OwnerIsNextPoint | minidb/sharding/consistent_hash.py:86-108 | the owner of a key is the node of the least point at or after the key's hash, or of the least point of all when there is none |
| HashRing.ReplicasAreDistinct | minidb/sharding/consistent_hash.py:110-142 | a lookup gives min(count, nodes) distinct nodes of the ring, but one at least, headed by the owner |
| HashRing.ReplicasTakeOver | minidb/sharding/consistent_hash.py:110-142 | each replica of a key is the node that would own the key if the replicas before it left |
| HashRing.RemovalKeepsOrder | minidb/sharding/consistent_hash.py:65-142 | removing a node turns every key's preference order into the old order without that node |
| HashRing.AdditionKeepsOrder | minidb/sharding/consistent_hash.py:41-142 | adding a node only inserts it into every key's preference order |
| HashRing.LeavingMovesLittle | minidb/sharding/consistent_hash.py:65-142 | when a node leaves, a key changes owner only if that node owned it, and a replica set loses at most that node and gains at most one |
| HashRing.JoiningMovesLittle | minidb/sharding/consistent_hash.py:41-142 | when a node joins, a key changes owner only to it, and a replica set gains at most that node and loses at most one |
| Migration.ShardMigrationManager.CalculateRebalance | minidb/sharding/migration.py:172-210 | one task per target, and a key is in a task exactly when this node does not replicate it and another node owns it, then in the owner's task |
| Migration.ShardMigrationManager.SendKeys | minidb/node.py:1378-1418 | a batch counts as sent only if the target is known, imported it and its reply came; the import goes through the conflict rule |
| Migration.ShardMigrationManager.ExecuteMigration | minidb/sharding/migration.py:212-277 | a task completes exactly if every batch of a hundred and the last one are imported and answered, and fails at the first that is not; the target has then imported exactly the held keys up to there, the progress says how many were confirmed, and only a completed task deletes, exactly the keys not replicated here |
| Migration.ShardMigrationManager.OnNodeJoin | minidb/sharding/migration.py:120-152 | no task if the new node owns no local key, and otherwise one task of exactly the local keys it owns |
| Migration.JoinMovesDisplacedKeys | minidb/sharding/migration.py:120-152 | when a node joins the ring, the migration to it holds exactly the local keys whose owner the join has changed |
| Migration.MigrationConservesKeys | minidb/sharding/migration.py:212-277 | over any sequence of tasks that send keys to their owners, whichever batches fail, every key held at first is still here unchanged or at its owner with the same or a higher rank |
| Migration.CompleteRebalanceLeavesReplicas | minidb/sharding/migration.py:172-277 | after a rebalance whose tasks all completed the node holds exactly the keys it held and replicates |
| Migration.RingLookupsUsable | minidb/sharding/consistent_hash.py:86-142 | the lookups of any reachable ring meet what the previous theorem asks of them |
| Persistence.SnapshotPersistence.Save | minidb/storage/snapshot.py:80-108 | performs exactly the file operations of a save in order and leaves the new snapshot, its metadata, the old one as the backup and no temporary file |
| Persistence.SnapshotPersistence.LoadSnapshot | minidb/storage/snapshot.py:120-166 | the snapshot if readable, else its backup if that is readable; the backup is copied over an unreadable snapshot either way, and is not consulted when the snapshot is missing |
| Persistence.AOFPersistence.Append | minidb/storage/aof.py:113-155 | one line is added to the log, of which the file holds a part and the buffer the rest; a synced append, or one after the interval, leaves every line so far in the file and on stable storage, any other leaves what is synced as it was |
| Persistence.AOFPersistence.Compact | minidb/storage/aof.py:199-254 | flushes the buffer, performs exactly the file operations of a compaction, and leaves one synced line per key in order, the whole old log as the backup and no temporary file |
| Persistence.AOFPersistence.ReplayInto | minidb/storage/aof.py:165-197 | the store ends as its table with every log line applied in order, and the count is the number of lines |
| Persistence.RecoverData | minidb/node.py:237-268 | a started node's table is the whole log replayed over the snapshot |
| Persistence.ReplayDecides | minidb/node.py:246-266 | after replay a key the log mentions is as its last line says, whatever was there before; any other key is unchanged |
| Persistence.ReplayIgnoresSnapshot | minidb/node.py:237-268 | replay over a snapshot equals plain replay if and only if the log mentions every key of the snapshot |
| Persistence.LinesOfRebuild | minidb/storage/aof.py:219-244 | the rewritten log replays to the table it was written from |
| Persistence.SaveIsSafe | minidb/storage/snapshot.py:80-108 | from any directory, at every point of a save the log is untouched and any snapshot is the old one or the new one; in the end it is the new one |
| Persistence.CompactIsSafe | minidb/storage/aof.py:206-254 | from any directory, at every point of a compaction the snapshot is untouched and any log is the old one or the rewritten one; in the end it is the rewritten one |
| CrashRecovery.StepLeaves | minidb/node.py:274-287 | what each step of the crash machine leaves when it completes, in the words of the methods: one more line, synced or not; every line synced; the directory a save leaves; the one a save and then a compaction leave |
| CrashRecovery.CrashRecoversMemoryExactly | minidb/node.py:237-287 | after any run of synced and unsynced log writes, syncs, snapshots and compactions, with earlier crashes whose log alone gave what was recovered, a crash at any moment of the next step that keeps the first n lines recovers the memory if and only if every key with a lost line is harmless, and always when no line is lost |
| CrashRecovery.SyncedLinesShow | minidb/storage/aof.py:113-155 | after any such crash each line of the history but the unsynced last ones shows: its key is as it says or as a later line says |
| CrashRecovery.DurablePrefix | minidb/node.py:237-268 | what any such crash recovers is the replay of the surviving prefix of the history if and only if there is no log or the kept lines mention every key of the snapshot |
| CrashRecovery.SnapshotAheadMixesTimes | minidb/storage/snapshot.py:80-108 | a run with a snapshot ahead of the kept log whose recovered table is the replay of no prefix of its history |
| CrashRecovery.CrashSafeExactly | minidb/node.py:237-287 | from a restart on any readable directory, every crash of every run of synced steps recovers the memory if and only if the log alone gives what was recovered |
| CrashRecovery.CrashSafeExactlyWithLog | minidb/storage/aof.py:246-250 | after a crash of a node whose lines are all synced, later crashes are harmless if and only if a log file was left or the memory was empty |
| CrashRecovery.SecondCrashCanLoseEverything | minidb/storage/snapshot.py:91-98 | at every state of a run a crash point of a compaction, which recovers the memory, and then one of the next snapshot, which recovers the empty table |
| Merkle.MerkleTree.Build | minidb/repair/merkle.py:45-78 | the loops over keys and buckets build the specified tree and the table of entry hashes, whatever was there before |
| Merkle.MerkleTree.BuildLevels | minidb/repair/merkle.py:80-105 | pairing level by level, with an odd last node promoted, terminates in the specified tree |
| Merkle.MerkleTree.CompareWith | minidb/repair/merkle.py:111-140 | the recursive comparison with its accumulator returns the specified ranges, and nothing when a tree is empty |
| Merkle.ReportedExactly | minidb/repair/merkle.py:122-140 | a range is reported if and only if it is that of a node of the first tree at which a way down through different hashes meets a leaf of either tree |
| Merkle.MerkleTree.GetKeysInRange | minidb/repair/merkle.py:142-144 | exactly the keys within the closed range, once each |
| Merkle.TreeOfBuilt | minidb/repair/merkle.py:58-105 | the leaves of a built tree in order are the buckets of the sorted keys, together exactly the sorted keys; every leaf hashes its entries' hashes in order, every node its left and its right hash, and ranges run from the first to the last key |
| Merkle.BucketsAreFull | minidb/repair/merkle.py:62-64 | no bucket is empty or too large, and every one but the last is full |
| Merkle.TreeShape | minidb/repair/merkle.py:80-105 | without levels: the left half of a tree takes the greatest power of two of buckets that leaves one over, and both halves are built likewise |
| Merkle.TextFaithful | minidb/repair/merkle.py:54-56 | without colons in keys the hashed text of an entry determines its key, value text and version |
| Merkle.DigitsDenote | minidb/repair/merkle.py:54-56 | the version is written in decimal digits that denote it, without leading zeros |
| Merkle.SameHash | minidb/repair/merkle.py:37-43 | without collisions two nodes of equal hash hold the same buckets with the same entries, whatever tree shapes they come from |
| Merkle.CompletenessExactly | minidb/repair/merkle.py:111-140 | for any two tables and bucket sizes, every entry of the first that the second lacks or holds differently lies in a reported range, if and only if it is not a non-empty table meeting an empty one |
| Merkle.ExactOnEqualKeys | minidb/repair/merkle.py:111-140 | over equal key sets and one bucket size the reported ranges are exactly the buckets with a differing value or version, once each and in order |
| Merkle.SecondOnlyReported | minidb/repair/merkle.py:111-140 | without collisions, for any two tables and bucket sizes, every key only the second table holds that lies inside the range of a bucket of the first lies in a reported range |
| Merkle.SecondOnlyExactly | minidb/repair/merkle.py:111-140 | when both tables make equally many buckets, a key only the second holds is in a reported range if and only if it lies inside the range of a bucket of the first |
| Merkle.GapKeyMissed | minidb/repair/merkle.py:130-140 | when the first table makes two buckets and the second more than one, a key between the two buckets is in no reported range |
| Merkle.GapKeyExample | minidb/repair/merkle.py:130-140 | keys a, c, e, g in buckets of two against the same and d: d is in no reported range, for every hash |
| Merkle.NothingReportedOutside | minidb/repair/merkle.py:130-133 | a key below or above all keys of the first table is in no reported range |
| Merkle.ColonsHideDifferences | minidb/repair/merkle.py:54-56 | two different tables with colons in keys whose comparison is empty for every hash |
| TokenBucket.TokenBucketLimiter.TryAcquire | minidb/chaos/rate_limiter.py:70-103 | grants exactly as the specification of the whole call history says, and counts every request as allowed or rejected |
| TokenBucket.TokenBucketLimiter.GetAvailableTokens | minidb/chaos/rate_limiter.py:105-110 | refills without spending, and with clocks that do not go back shows exactly the least of what the spans since each call for the key still allow |
| TokenBucket.GrantedExactly | minidb/chaos/rate_limiter.py:70-103 | a request is granted if and only if no span from an earlier call for its key, or from itself, would exceed burst + rate * length by it |
| TokenBucket.WindowBound | minidb/chaos/rate_limiter.py:70-103 | in every run, for every key and every window of time, at most burst + rate * length requests are granted |
| SlidingWindow.SlidingWindowLimiter.TryAcquire | minidb/chaos/rate_limiter.py:148-170 | the pop loop and the two clock readings grant exactly as the specification of the whole call history says |
| SlidingWindow.SlidingWindowLimiter.GetCurrentCount | minidb/chaos/rate_limiter.py:182-187 | with a monotone clock, the number of permits stamped for the key within the window before the call |
| SlidingWindow.SpanBound | minidb/chaos/rate_limiter.py:154-180 | in every run with a monotone clock, for every key, no closed span of window_seconds holds more than max_requests granted permits |
| SlidingWindow.GrantedExactly | minidb/chaos/rate_limiter.py:154-180 | a request is granted if and only if fewer than max_requests permits were stamped for its key within the window before it |

## Left out

- Sockets, threads, timeouts, retries, connection pools, the command line, and the JSON and
  gzip encodings: records are datatypes and remote calls are steps.
- Expiry of keys: no item carries a time to live, in the store, in the log or in snapshots.
- Membership changes and restarts in the election protocol; log entries with an index below 1,
  which the program would read as positions from the end of the list; the leader's
  next_index and match_index tables, which no code maintains. Nothing in the program sends
  AppendEntries, so the sender of the model is a leader that ships any slice of its log.
- The heartbeat sender reads its term without the lock, so in the model any node may send a
  heartbeat with its own current term at any time.
- State machine safety for all runs: false of the code, as `ElectionLimits.StateMachinesCanDiverge`
  shows; it is proved of the runs described above, and per delivery with its exact condition.
- On the write path: leader changes, more members than replicas, commits that arrive after
  their call was given up, and ONE or ANY writes in the cluster machine. With DELETEs only
  `WritePath.NoValueWithoutPrepareQuorum` and `AckedWrites.LeaderIsLedger` are claimed, for
  there are no tombstones.
- STRONG, ONE and ANY reads, which ask a single node.
- Migration: writes that interleave with one, what the other replicas do with keys passed on to
  them, task identifiers, history and cancellation.
- Persistence: torn last lines, corrupted lines, the loss of file operations other than appends
  in a power failure, and writes during a snapshot-and-compact cycle.
- Merkle: the serialised form of a tree. Values enter as their text, so two values that print
  alike count as equal.
- Rate limits: floating-point rounding, the adaptive limiter and backpressure.
- Gossip, the fault injector, the router, the partition wrapper, version vectors, most
  statistics, and the anti-entropy manager, whose remote callbacks are never set.
