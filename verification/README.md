# RFT in Dafny

A model of RFT: the raft membership service (elections, log replication, commitment,
configuration changes, snapshots), the asynchronous primary/backup replication of xApp
commands built on it, and the rings, hash table and wire format both rest on. Every statement
below holds for all inputs, all runs or all interleavings of the model; where the code does
not keep a promise, there is a concrete run or input that shows it and the condition under
which the promise holds. The condition is exact, an if-and-only-if, except for Log Matching and
State Machine Safety over whole runs: there it is sufficient, and exact for each single request.

## How the model is organised

| file | what it holds |
|---|---|
| `types.dfy`, `members.dfy`, `changes.dfy` | log entries, the configuration array as a value, membership commands and their undoing |
| `member_spec.dfy` | what each operation and membership command does, told server by server |
| `config.dfy` | class `Config`: the configuration array updated in place |
| `bits.dfy`, `log_ring.dfy`, `raft_log.dfy` | masks and 32-bit wrap-around; class `LogRing`; class `Log` with index bookkeeping and memory account |
| `log_spec.dfy` | truncation and the consistency check on a log as a value |
| `raft.dfy` | every raft handler as a function of one server's state |
| `raft_spec.dfy` | what each raft handler does, as conditions on the server before, the message and the server after |
| `raft_node.dfy` | class `Node`: the same handlers as they run, over `Log` and `Config`, each proved equal to its function |
| `cluster.dfy` | any number of servers and a network that loses, repeats and reorders |
| `election.dfy`, `log_matching.dfy`, `commit_rule.dfy` | Election Safety, Log Matching, the leader's commit rule, over whole runs |
| `completeness.dfy` | Leader Completeness and State Machine Safety over the runs in which followers forget nothing they share with the sender |
| `renumbering.dfy`, `divergence.dfy` | runs in which Log Matching (unguarded) and State Machine Safety fail |
| `moves.dfy`, `needed.dfy` | stretches of runs for any voting set; runs that show what State Machine Safety needs besides |
| `install.dfy` | a second vote and a second leader in one term after a snapshot install |
| `rollback.dfy`, `reign.dfy` | configuration rollback, fuzzy snapshots, one change at a time |
| `chain.dfy` | one server's log over its whole life, with compaction running beside it |
| `replication.dfy` | xApp replication: safety, compaction, catching up |
| `ringbuf.dfy` | the single-producer/single-consumer ring, step by step, with sleeping and waking |
| `byte_order.dfy`, `codec.dfy` | HTONLL/NTOHLL, log entries as bytes |
| `linked_chain.dfy`, `hashtable.dfy` | doubly linked buckets, the table over them, the walk over all keys |

A handler of the source runs under `raft_state_lock`, so one handler is one step of the
cluster. Building a message is one step too. Where the source calls `exit`, an imperative
method returns `alive == false` (or `ok == false`) and promises nothing about the state;
elsewhere the run simply does not go on.

The theorems about whole clusters (`Election`, `LogMatching`, `CommitRule`, `Completeness`)
assume what the code relies on: one fixed voting set, no restart, no snapshot installed, and one
committed log all servers start from. `LogMatching` and what builds on it also assume that no
request with entries is accepted at a previous index below the receiver's commit index (outdated,
empty and rejected requests are free). `Renumbering` is a run without that assumption in which
Log Matching fails, and `LogMatching.StoredInPlaceIff` says that it is exactly when one request
stores its entries under the sender's indexes.

`Completeness` assumes three things more. A follower that receives a request keeps every entry on
which it agrees with the leader of the request's term: `Divergence` is a run without this in which
committed entries differ, and `Completeness.AgreementKeptIff` says exactly which requests do it.
The common log is not empty, because the last term of an empty log is the current term. And no
membership request of a voter raises the match index its leader keeps for it. `Needed` has a run
for each of the last two that keeps all other conditions and ends with different committed
entries.

Where the code and its comments differ, the model follows the code:

- `handle_vote_request` names `timed_out` the opposite of what it computes: a follower rejects
  when its election timer has expired (`pending` in the model).
- `check_raft_log_consistency` drops every entry above the commit index whenever the previous
  entry is missing, not only conflicting ones (`LogSpec.SurvivesIff`).
- a raft snapshot is labelled with the current term, not with the term of its last entry
  (`LogSpec.CompactionTransparent`), and installing it sets the current term to that label
  (`Install.SecondVoteIff`).
- a blocking `ring_extract` can return NULL (`RingBuf.LateSignalGivesUp`, and exactly when:
  `RingBuf.ReturnsNullIff`), and the worker that called it then exits the process
  (src/rft.c:2117-2120).
- `remove_raft_conflicting_entries` exits when it takes back the removal of a server that has
  joined again in the meantime (`Rollback.RejoinThenDropExits`).
- `state_replication` exits when `master_index` is beyond the log, because the number of entries
  to send wraps around (`Replication.OverrunIff`).
- `add_server` on a server already configured overwrites its xApp `master_index` with a raft
  index (`Rejoin` in `replication.dfy`).

`dafny verify dfyconfig.toml` checks the whole project.

## Model

| member | source | states |
|---|---|---|
| `Election.ElectionSafety` | src/rft.c:796-932 | over a whole run with a fixed voting set, whoever leads a term at one moment and whoever leads it at any other are the same server (section 5.2 of the Raft paper) |
| `Election.NeverMoreVotesThanVoters` | src/config.c:403-468 | in every reachable state the received votes are exactly the `voted_for_me` marks and never exceed the voters, so the exit in `has_majority_of_votes` is unreachable |
| `Election.StepKeepsVoteInv` | src/rft.c:1418-1503 | every handler keeps: one ballot per server and term, every counted vote is a ballot cast for that candidate, every elected leader has a majority of ballots |
| `Election.QuorumsMeet` | src/config.c:452-468 | two majorities by the source's integer test share a voter |
| `LogMatching.LogMatchingHolds` | src/log.c:284-391 | any two logs ever held, by any two servers at any two moments of a run, that share an index and term are identical up to that index (section 5.3 of the Raft paper) |
| `LogMatching.SuccessReplyMeans` | src/rft.c:1707-1765 | a success reply with last_log_index n, to a request at or above the commit index, means the follower's log, all n entries, was the beginning of the sender's log while the sender led that term |
| `LogMatching.LogTermsNonDecreasing` | src/rft.c:1626-1765 | in every reachable state terms never decrease along a log and applied <= commit <= last index |
| `LogMatching.StepKeepsLogInv` | src/rft.c:939-999 | every step keeps: each entry was written by its term's leader on top of the same prefix, and each request carries a slice of that leader's log |
| `LogMatching.RequestForIsSlice` | src/rft.c:964-987 | what the leader puts in a request is a slice of its own log, with the term of the entry before it |
| `LogMatching.AppendRequestLog` | src/rft.c:1707-1765 | a request that stores no entries below the commit index leaves the follower's log sound, and when accepted at or above it a prefix of that leader's log |
| `LogMatching.StoredInPlaceIff` | src/log.c:174-189 | an accepted request's entries are the last of the new log, and stand under the sender's indexes if and only if it has none or its previous index is not below the commit index |
| `Completeness.LeaderCompleteness` | src/rft.c:1454-1464 | over a whole run in which followers keep what they share with the sender: whoever leads later, in the same or a later term, holds every entry any server had committed (section 5.4.3 of the Raft paper) |
| `Completeness.StateMachineSafety` | src/rft.c:1626-1705 | over such a run, whatever two servers have committed at any two moments is identical |
| `Completeness.StepKeepsCompInv` | src/rft.c:1418-1813 | every handler keeps: what a server confirmed is in its log unless a leader in between lacked it, every vote and every win accounts for what the voters confirmed, every commit index is backed by a majority |
| `Completeness.LeaderHolds` | src/config.c:477-505 | an entry of a leader's own term stored by a majority is in the log of every later leader |
| `Completeness.UpToDateHolds` | src/rft.c:1454-1464 | a candidate that passes the voter's log check holds every entry of an earlier leader's own term that the voter holds, unless a leader in between lacked it |
| `Completeness.CommittableIsChosen` | src/rft.c:1637-1660 | what the leader finds by counting match indexes was confirmed by a majority of the voters in its term |
| `Completeness.AgreementKeptIff` | src/log.c:284-391 | an uncommitted entry on which follower and leader agree survives a request if and only if the request is accepted at or above the commit index and reaches that far |
| `Renumbering.UnguardedRunBreaksLogMatching` | src/log.c:174-189 | a run in which a request delivered twice, the second time below the commit index, is appended again under new indexes and Log Matching fails |
| `Divergence.CommittedEntriesDiffer` | src/log.c:354-391 | a reachable state of a run with three voters and no request below a commit index in which two servers have committed and applied different entries at one index: State Machine Safety fails |
| `Needed.EmptyLogBreaksSafety` | src/log.c:457-470 | a run from an empty common log, every other condition kept, in which a server that holds nothing is elected over a committed entry and commits another one in its place |
| `Needed.PromotionBreaksSafety` | src/config.c:145-226 | a run in which a voter's membership request names an index it does not hold, the leader counts it, and two servers commit different entries at one index |
| `LogSpec.SurvivesIff` | src/log.c:284-346 | an uncommitted entry survives a request, accepted or not, if and only if the previous entry the request names is in the log at or after it |
| `LogSpec.TruncateIs` | src/log.c:300-343 | the removal loop in closed form |
| `LogSpec.AcceptedPrefix` | src/log.c:354-391 | an accepted request keeps the log exactly up to its previous index if and only if that index is not below the commit index |
| `LogSpec.KeptAfterCompaction` | src/log.c:354-391 | compacting a log and truncating it commute at or above the commit index |
| `LogSpec.CompactionTransparent` | src/config.c:764-765 | compaction is invisible to every request if and only if the snapshot label is the term of the last compacted entry or that entry can no longer be named |
| `CommitRule.LeaderCommitsHighest` | src/rft.c:1767-1813 | in every reachable state a reply moves a leader's commit index to exactly the highest index up to the one replied that is of its own term and, with this reply counted, held by a majority, or not at all (section 5.4.2 of the Raft paper) |
| `CommitRule.CountPlusOne` | src/config.c:477-505 | "count + 1" is the true number of holders because the leader's own match index is 0 |
| `CommitRule.ScanFindsHighest` | src/rft.c:1637-1660 | the downward search finds the highest committable index, and nothing only if there is none |
| `CommitRule.RunKeepsLeaderInv` | src/rft.c:1511-1528 | in every run candidates and leaders are voters, and a leader's own match index stays 0 through its reign |
| `RaftSpec.TermsExact` | src/rft.c:911-932 | only a higher term changes anything: it is taken over, the vote is cleared, and every server but one that has just started is a follower |
| `RaftSpec.VoteGrantedIff` | src/rft.c:1418-1471 | a vote is granted if and only if the request is not outdated, the election timer allows it (or the role makes it irrelevant), and the server has voted for this candidate in this term, or not at all and the candidate's log is up to date |
| `RaftSpec.WinsIff` | src/rft.c:1480-1503 | a reply makes a leader if and only if it is a granted vote of the candidate's term from a voter not counted yet, and with it more than half have voted |
| `RaftSpec.CampaignExact` | src/rft.c:808-835 | a candidate has counted its own vote only, in the next term, and leads at once exactly if there is no other voter |
| `RaftSpec.NewLeaderExact` | src/rft.c:871-899 | a new leader's log ends in a no-op of its term, and for every server the next index is one past that log and the match index 0 |
| `RaftSpec.StepsDownIff` | src/rft.c:1551-1606 | applying the committed entries makes a follower of a server if and only if it was one or one of them adds this server while it is configured; it keeps its role otherwise |
| `RaftSpec.FollowerCommits` | src/rft.c:1677-1704 | a server that does not lead commits min(index told, last index), never back, applies up to there, and changes role exactly as above |
| `RaftSpec.RequestExact` | src/rft.c:1707-1765 | for every request to a server that does not lead its term: reply, term, vote, log, commit and applied index, for outdated, rejected and accepted ones |
| `RaftSpec.RequestRole` | src/rft.c:1707-1765 | its role afterwards |
| `RaftSpec.ChainAgrees` | src/rft.c:1707-1765 | on a log not compacted yet the chain of one server's life takes the same step |
| `RaftSpec.RequestNames` | src/rft.c:939-999 | the request for a server names the entry before its next index if the log has it, and carries the k entries that fit exactly if the server matches up to there |
| `RaftSpec.ReplyExact` | src/rft.c:1767-1813 | a reply moves the next index of its sender, its match index on success only, nobody else's, and the commit index only on success beyond it |
| `RaftSpec.MembershipExact` | src/rft.c:1511-1528 | a membership request reaches a leader only, gives the sender the indexes it names, and does not make it a voter |
| `Install.SecondVoteIff` | src/config.c:800-802 | after installing a snapshot a server can vote for someone else in a term it has voted in, on a request a candidate may send, if and only if the snapshot was taken in an earlier term |
| `Election.OneVotePerTerm` | src/rft.c:1418-1471 | over a whole run without an install a server grants its vote in a term to one candidate only |
| `Install.TwoLeadersAfterInstall` | src/config.c:800-802 | a run, one install of a snapshot taken in the term before, and a run from there on that ends with two leaders in one term |
| `Chain.CommittedForGood` | src/log.c:284-346 | between snapshot installs a committed entry stays in its place, for requests of any content and compaction interleaved with them |
| `Chain.AppliedInOrder` | src/rft.c:1551-1606 | index_offset <= last_applied <= commit_index <= last_log_index always; the state machine receives every index once, in order, with the entry the log holds; the next entry is always found |
| `Chain.LookupDuringCompaction` | src/log.c:945-981 | at every moment of a compaction a lookup answers as in the full log exactly for the indexes not compacted yet |
| `Chain.StepKeepsSound` | src/snapshot.c:472-503 | every step, truncation, compaction, publication and install included, keeps the index chain and the agreement of snapshot and offset |
| `Chain.CompactsToForkPoint` | src/snapshot.c:472-503 | when a compaction is done the ring starts after exactly the entries that were applied when its snapshot was taken, and the label has the term of that moment |
| `Rollback.UndoRestoresIff` | src/log.c:318-336 | dropping a membership entry restores the voting set if and only if an ADD named a non-voter and a DEL a voter |
| `Rollback.RollbackRestores` | src/log.c:216-239 | however entries are appended and dropped, as long as the process survives, the voting set in force is the one the surviving log produces, with unique ids (section 4.1 of the Raft dissertation) |
| `Rollback.RollbackSurvivesIff` | src/log.c:318-336 | at every moment of every history, dropping a suffix of the log survives if and only if no server that the last command in it naming the server removed is configured |
| `Rollback.RejoinThenDropExits` | src/log.c:325-328 | a history in which one of two voters is removed and joins again, and dropping its removal ends the process |
| `Rollback.FuzzyInstall` | src/config.c:734-767 | a configuration captured when it already reflected later entries, installed and followed by the leader's entries, has the right voting set if and only if every server touched in between and not touched again has the status it had |
| `Rollback.FuzzyInstallOfSameLog` | src/config.c:780-823 | if the leader's log still holds those entries, replaying them on the installed configuration changes nothing |
| `Reign.FlagTellsTheTruth` | src/config.c:603-618 | in a reign that starts so, the changing flag is set exactly while one change is uncommitted |
| `Reign.OneChangeAtATimeIff` | src/rft.c:1191-1228 | no continuation of a reign ever has two uncommitted changes if and only if it starts with none, or with one and the flag set |
| `Reign.CommitCounts` | src/rft.c:1662-1675 | committing clears the flag exactly when it commits a change |
| `Reign.InForceNextToCommitted` | src/rft.c:1191-1228 | at every moment of a reign the voting set of the configuration in force and the one the committed log produces differ by at most one server |
| `Reign.CountedMeetsCommitted` | src/config.c:452-505 | at every moment of a reign a majority counted in the configuration in force meets every majority of the committed voting set |
| `Reign.MajoritiesMeet` | src/config.c:452-505 | majorities of two such neighbouring sets, by the integer tests, intersect |
| `Replication.BackupAgreesIff` | src/rft.c:1815-1864 | in every run over a lossy, repeating, reordering network, with snapshots and compaction, the backup's state is the primary's after replica_index commands if and only if no step lost the backup's replica_index, with commands applied, without a snapshot or restart after it |
| `Replication.BackupIsPrefix` | src/rft.c:500-538 | without such a loss, the backup's state always is a state the primary went through, each command applied once and in order |
| `Replication.StepKeeps` | src/rft.c:1294-1409 | every step of primary, backup, snapshot thread and network keeps: snapshots are states of the log they are labelled with, messages are slices of it |
| `Replication.MasterInRangeIff` | src/rft.c:1866-1876 | master_index stays within the log throughout a run if and only if the index in every repeated membership request is within the log at that moment |
| `Replication.StaysUp` | src/rft.c:1342-1349 | as long as they are, the primary never reaches the exit of the serializer |
| `Replication.OverrunIff` | src/rft.c:1342-1349 | the 32-bit count of entries to send fails the serializer's 64-bit range test if and only if master_index is beyond the log by something else than a multiple of 2^32 |
| `Replication.RejoinBeyondExits` | src/log.c:621-624 | so a membership request beyond the log lets the next pass exit exactly then |
| `Replication.LogAndSnapshotMeet` | src/snapshot.c:404-429 | an entry missing from the log is covered by the published snapshot; outside compaction the two meet exactly |
| `Replication.ForkExactIff` | src/log.c:258-272 | in every run with any number of rft_replicate calls in progress, a snapshot is the state at its index if and only if every call so far applied its command when it was due and none is between appending and applying |
| `Replication.OvertakingSpoilsFork` | src/rft.c:500-538 | two calls that overtake each other and have both finished leave a snapshot that is no state of the log |
| `Replication.NothingUncounted` | src/rft.c:500-538 | in every run, concurrent rft_replicate calls included, each appended command is either applied or waiting |
| `Replication.ForkStartsIff` | src/log.c:258-272 | in every run a snapshot is started exactly by an append past a threshold with none in progress, and one in progress stays until it is abandoned or compacted |
| `Replication.CatchesUpIff` | src/rft.c:1340-1395 | with entries that fit and no loss, the backup reaches the primary's whole state if and only if it is there already or the primary runs with master_index below the last log index; one exchange ends the primary exactly when master_index has overrun the log |
| `Replication.AlignedCatchesUp` | src/rft.c:1340-1395 | once master_index equals replica_index, at most as many exchanges as entries are missing, each strictly forward, by entries or by snapshot |
| `Replication.OversizedBlocks` | src/log.c:571-572 | in every run, a backup that has not applied an entry too large for a message gets past it if and only if a snapshot that includes it is delivered |
| `Replication.OversizedExchange` | src/rft.c:1379-1391 | exchanges leave such a backup where it is while the log holds the entry, and bring the snapshot once compaction has dropped it |
| `Replication.DueIs` | src/rft.c:1340-1395 | a pass sends the snapshot exactly if the entry wanted next has been compacted, otherwise the longest stretch of entries from there on that fits, or nothing |
| `Replication.ExchangeExact` | src/rft.c:1815-1876 | an exchange with a backup where the primary expects it moves it by exactly the entries that fit, with all their commands applied; otherwise it only corrects master_index |
| `Replication.ExchangeIsSteps` | src/rft.c:1340-1395 | one pass of the sender is nothing, the exit, or sending, delivery and reply as three steps of the machine |
| `Replication.FitIsSerialized` | src/log.c:545-628 | the number of entries in a message is the one the serializer arrives at |
| `Replication.Replica.HandleEntries` | src/rft.c:1815-1864 | applies all commands of a request, in order, and moves replica_index by their number, if and only if the sender is known, a callback is registered and its master_index is the replica_index, otherwise changes nothing; replies with the replica_index, or 0 to an unknown sender |
| `Replication.Replica.HandleImage` | src/rft.c:1878-1922 | replaces state and replica_index by the snapshot's unless the sender is unknown, no callback is registered or another install is running |
| `RingBuf.FirstInFirstOut` | src/static/ringbuf.c:270-376 | for every interleaving and any number of 32-bit wraps, extracted data is a prefix of inserted data, and the counts are exact with at most size - 1 elements waiting |
| `RingBuf.NoOverwrite` | src/static/ringbuf.c:270-376 | the producer never writes a slot that was not extracted, the consumer never reads an empty one and clears only the slot of the element it holds |
| `RingBuf.StepKeepsData` | src/static/ringbuf.c:317-376 | every producer and consumer step keeps each slot of the window what the history says |
| `RingBuf.Counts` | src/static/ringbuf.c:211-235 | ring_count and ring_count_free on wrapped counters are the true numbers |
| `RingBuf.SleeperIsSignalled` | src/static/ringbuf.c:284-293 | no wakeup is lost: a consumer asleep beside data is signalled within two steps of the running insert, which are not blocked |
| `RingBuf.ReturnsNullIff` | src/static/ringbuf.c:327-372 | in every interleaving a blocking extract that looks for an element returns NULL if and only if it had gone to sleep and nothing was inserted between that and the look; the only other NULL is that of a passed timeout |
| `RingBuf.GivesUpOnly` | src/static/ringbuf.c:327-372 | without timeout it does so only after a spurious wake or when it fell asleep while an insert still owed its signal |
| `RingBuf.SignalFindsDataIff` | src/static/ringbuf.c:284-293 | a signal finds the ring empty if and only if the consumer fell asleep between that insert's head update and its signal |
| `RingBuf.LateSignalGivesUp` | src/static/ringbuf.c:327-372 | a reachable state, without spurious wake or timeout, in which a blocking extract returns NULL; the worker of rft.c exits on that |
| `Bits.PowerTest` | src/static/logring.c:86-89 | size & (size - 1) is zero exactly for powers of two |
| `Bits.MaskIsMod` | src/static/logring.c:166-167 | masking with size - 1 is the remainder by size |
| `Bits.WrapKeepsSlot` | src/static/ringbuf.c:279-283 | a counter that wrapped at 2^32 still selects its slot |
| `LogRing.LogRing.Create` | src/static/logring.c:75-107 | refuses exactly size 0 and sizes from 16 up that are no power of two |
| `LogRing.LogRing.Insert` | src/static/logring.c:160-177 | appends to the stored sequence unless size - 1 entries are stored |
| `LogRing.LogRing.Extract` | src/static/logring.c:192-207 | removes and returns the oldest entry; slots outside the sequence are NULL |
| `LogRing.LogRing.ExtractR` | src/static/logring.c:222-237 | removes and returns the newest entry, also when head wraps below zero |
| `LogRing.LogRing.Get` | src/static/logring.c:248-274 | on consecutive indexes, the entry with that log index, or nothing, exactly by range |
| `LogRing.LogRing.Count` | src/static/logring.c:129-133 | the number of stored entries |
| `RaftLog.Log.Append` | src/log.c:174-189 | the entry gets the next index, the account grows by its footprint; only a full ring refuses |
| `RaftLog.Log.Get` | src/log.c:396-409 | finds index i exactly when index_offset < i <= last_log_index |
| `RaftLog.Log.DropLast` | src/log.c:300-310 | taking the newest entry out and putting it back is the identity when it is the one named, otherwise it is dropped |
| `RaftLog.Log.CompactServer` | src/log.c:896-931 | drops exactly the entries up to last_index and keeps the memory account exact |
| `RaftLog.Log.CompactRaft` | src/log.c:945-981 | the same, taking off header and data length only, which keeps an exact account of entries without context and key exact |
| `RaftLog.Log.FreeAll` | src/log.c:510-523 | empties the log and puts both index bounds at the snapshot |
| `RaftLog.RaftAccountIff` | src/log.c:960 | one compaction leaves the raft account exact if and only if no compacted entry has a context or key |
| `RaftLog.AccountExactIff` | src/log.c:945-981 | at every moment of every run of appends, drops, compactions and resets the account is exact if and only if no entry compacted since the last reset had a context or key, and otherwise too high |
| `RaftLog.RaftAccountExact` | src/log.c:850-852 | raft entries have neither, so the account of the raft log is exact in every run |
| `RaftLog.AppendRaft` | src/log.c:196-249 | appends and applies the membership command, keeping the voting counter right |
| `RaftLog.RemoveConflicting` | src/log.c:284-346 | survives exactly if each dropped removal names a server not configured at that moment; then the loop leaves the log LogSpec.Truncate describes, takes back exactly the dropped entries' commands newest first, and keeps the account |
| `RaftLog.CheckConsistency` | src/log.c:354-391 | survives exactly under the same condition; then log, configuration and answer are the specification's |
| `RaftNode.Node.MatchTerms` | src/rft.c:911-932 | a higher term clears the vote and ends candidacy or leadership |
| `RaftNode.Node.BecomeLeader` | src/rft.c:871-899 | appends a no-op of its term and resets all indexes |
| `RaftNode.Node.StartElection` | src/rft.c:796-856 | one pass of the candidate loop is Raft.StartElection |
| `RaftNode.Node.HandleVoteRequest` | src/rft.c:1418-1471 | state and reply are those of Raft.OnVoteRequest |
| `RaftNode.Node.HandleVoteReply` | src/rft.c:1480-1503 | counts a new vote and becomes leader as Raft.OnVoteReply |
| `RaftNode.Node.FindCommittable` | src/rft.c:1637-1660 | the search loop computes LeaderScan |
| `RaftNode.Node.HasConfigUpTo` | src/rft.c:1663-1675 | finds a configuration entry among those to be committed if there is one |
| `RaftNode.Node.ApplyLogEntries` | src/rft.c:1551-1606 | the loop applies every committed entry once, in order |
| `RaftNode.Node.CommitLogEntries` | src/rft.c:1626-1705 | state after it is that of Raft.Commit |
| `RaftNode.Node.HandleAppendRequest` | src/rft.c:1707-1765 | the process survives if and only if the message is outdated, or the dropped entries can be taken back and the ring has room for the accepted ones; then state and reply are those of Raft.OnAppendRequest |
| `RaftNode.Node.CommitSnapshot` | src/config.c:780-823 | configuration, log bounds, term, commit and applied index start over from the snapshot; exits exactly if a record repeats an id |
| `RaftNode.Node.HandleAppendReply` | src/rft.c:1767-1813 | state after it is that of Raft.OnAppendReply |
| `MemberSpec.AddServerExact` | src/config.c:145-226 | a server that is there only gets new indexes, a new one comes last as a non-voter at its address; every other server keeps all its fields |
| `MemberSpec.RemoveServerExact` | src/config.c:266-330 | the server is gone, the others keep all their fields and their order |
| `MemberSpec.AllServersExact` | src/config.c:514-551 | clearing votes and setting all indexes touch every server and only those fields |
| `MemberSpec.SetIndexesExact` | src/rft.c:1797-1800 | a reply touches the indexes of its sender only |
| `MemberSpec.ApplyExact` | src/log.c:216-239 | appending an ADD makes the server a voter, at the address it names if it was not there, a DEL removes it; nobody else changes |
| `MemberSpec.UndoExact` | src/log.c:318-336 | dropping an ADD removes the server, dropping a DEL adds it last as a voter at the address the entry names; nobody else changes |
| `Config.Config.GetServer` | src/config.c:101-111 | the first position with that id, or the end |
| `Config.Config.AddServer` | src/config.c:145-226 | appends a non-voter or resets the indexes of a known server; ids stay unique, the voting counter right |
| `Config.Config.RemoveServer` | src/config.c:266-330 | shifts the rest down and lowers the voting counter for a voter |
| `Config.Config.SetStatus` | src/config.c:361-392 | the voting counter follows every change of status |
| `Config.Config.SetNewVote` | src/config.c:403-420 | marks a voter's first vote and tells whether it was new |
| `Config.Config.ResetVotes` | src/config.c:514-526 | clears every mark |
| `Config.Config.HasMajorityOfVotes` | src/config.c:452-468 | more than half of the voting set; exits exactly on more votes than voters |
| `Config.Config.HasMajorityOfMatchIndex` | src/config.c:477-505 | matching voters plus the leader are more than half of the voting set |
| `Config.Config.SetAllIndexes` | src/config.c:533-551 | next and match index of every server for a new leader |
| `Config.Config.SetIndexes` | src/rft.c:1797-1800 | next index of the server that replied, and its match index on success |
| `Config.Config.SetConfigurationChanging` | src/config.c:603-618 | refuses only a second set |
| `Config.Config.GetReplicaServers` | src/config.c:650-692 | the circular scan returns at most n voters after this server, in ring order |
| `Config.ReplicasExact` | src/config.c:650-692 | a configured server gets min(n, other voters) distinct backups, never itself |
| `Config.ReplicasInOrder` | src/config.c:681-690 | the k-th backup is the k-th voter met going up from the own position modulo the size of the array |
| `Config.ReplicasCoverIff` | src/config.c:650-692 | with n large enough every other voter is offered if and only if the server is configured or the first server does not vote |
| `Config.Config.CreateSnapshot` | src/config.c:734-767 | one record for each server in order, with its id, address and status |
| `Config.Config.CommitSnapshot` | src/config.c:780-823 | one server for each record in order, with its id, address and status and the snapshot's index, and exits exactly if a record repeats an id |
| `Config.SnapshotRoundTrip` | src/config.c:734-823 | commit after create gives, position by position, the same id, address and status, hence the same voting set |
| `ByteOrder.HtonllIsNetworkOrder` | include/mtl.h:42 | HTONLL(x) in memory is the network order of x, on hosts of either endianness |
| `ByteOrder.NtohllReads` | include/mtl.h:46 | any host reads with NTOHLL what any host wrote with HTONLL |
| `Codec.HeadRoundTrip` | include/mtl.h:93-123 | a header of either format is read by any host as it was meant, padding ignored, command sign kept |
| `Codec.Serialize` | src/log.c:545-628 | emits the longest prefix of the wanted range that fits; ENODATA exactly when the first wanted entry is compacted |
| `Codec.SerializeFound` | src/log.c:557-616 | the loop: byte count is the sum of entry sizes and within the limit |
| `Codec.FitUnique` | src/log.c:557-572 | there is only one such longest prefix |
| `Codec.Deserialize` | src/log.c:701-772 | a message of any number of entries from any host delivers them all in order, each with index, command and data; a raft entry also with term and kind and without context and key, an xApp entry with context and key up to their first NUL byte |
| `Codec.RaftDeliveryExact` | src/log.c:744-757 | every raft entry arrives with its term, index, kind, command and data, and unchanged if and only if it had no context and key |
| `Codec.EntryBytes` | include/mtl.h:93-123 | the bytes of an entry by position: each header field in network order at its place, then the payload, on any host |
| `Codec.XappDeliveryExactIff` | src/log.c:721-743 | an xApp command arrives unchanged if and only if context and key hold no NUL byte |
| `LinkedChain.Chain.Locate` | src/static/hashtable.c:145-152 | the element with the key and the one before it |
| `LinkedChain.Chain.AddLast` | src/static/hashtable.c:157-186 | hangs a new element behind the last, both link directions consistent |
| `LinkedChain.Chain.Unlink` | src/static/hashtable.c:214-231 | joins the neighbours of the removed element |
| `HashTable.ComputeHash` | src/static/hashtable.c:41-54 | the bucket is the key itself or the polynomial 7 * 31^n + ... over its characters modulo 2^64, modulo the size |
| `HashTable.HashIsPolynomial` | src/static/hashtable.c:48-51 | wrapping at 2^64 in every step of the hash loop is wrapping once at the end |
| `HashTable.Table.Insert` | src/static/hashtable.c:127-189 | the table is a map: the key now has the value, nothing else changes |
| `HashTable.Table.Delete` | src/static/hashtable.c:198-239 | the key is gone, its value returned, nothing else changes |
| `HashTable.Table.Get` | src/static/hashtable.c:244-269 | the value of the key, or NULL |
| `HashTable.Table.ForEachKey` | src/static/hashtable.c:281-301 | visits the keys in chain order while the handler deletes the keys it chooses |
| `HashTable.WalkWithDeletion` | src/static/hashtable.c:281-301 | every key is visited exactly once, and exactly the keys the handler did not delete remain |
| `HashTable.Table.PrimaryContexts` | src/snapshot.c:280-307 | collects exactly the contexts with role RFT_PRIMARY, each once |

## Left out

- Completeness.StateMachineSafety: the condition on the run is sufficient, not necessary; a
  follower may forget an entry that was never going to be committed.
- Configuration changes, restarts and snapshot installs inside the cluster theorems: votes are
  in memory only and an install overwrites the term, so Election Safety and Log Matching are
  stated without them; `Install.TwoLeadersAfterInstall` shows what an install does.
- Log compaction inside the cluster machine: its servers keep the whole log; `Chain` and
  `LogSpec.CompactionTransparent` cover compaction for one server.
- The path of `raft_server` that gives up on a server it cannot connect to and removes it
  without the changing flag.
- RaftNode.Node.HandleAppendRequest: like every method of `Node`, on a log that has not been
  compacted and with no snapshot taken or installed.
- RaftNode.Node.HandleVoteRequest: the same; on a compacted log without entries the source reads
  the last term as the current one.
- RaftLog.AppendRaft: does not take the snapshot that a full log triggers; `Chain` models it
  as a step of its own.
- Codec.Deserialize: requires a message the serializer produced, because the source trusts the
  lengths in it; of the copied data only the first dlen bytes are described.
- Replication.OversizedExchange: errno is taken as set by the current call; after an earlier
  ENODATA the source sends the snapshot where the model sends nothing.
- Buffer capacity and its growth in the serializer: a message is a growing byte sequence.
- `get_raft_last_log_term` on an empty log takes `raft_state_lock` a second time; the model
  returns the current term, as the code after the lock would.
- Lock order between `raft_log_lock` and `raft_snapshot_lock`, and memory ordering weaker than
  sequential consistency in `ringbuf.c`.
- Truncation of sizes and counts to 32 bits outside the rings, the headers and the overrun of
  `master_index`; a backlog of 2^32 entries or more is counted exactly.
- `get_full_replicated_log_index`, the round count of `is_server_caught_up`, statistics functions,
  `ring_get`.
- Redis bootstrap, RMR messages and wormholes, pipes, fork, timers and thread start-up: clocks
  and scheduling are free choices of the model, taking a snapshot captures the state at one step.
- Allocation failures, logging, `queue.c`, command-line tools, examples and test programs.
