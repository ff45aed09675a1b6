# A verified model of the laptop ordering system

The system takes laptop orders through two-phase commit. A client reads the last order number of a
set of customers, builds a write set with several threads, and sends both to a transaction manager.
The manager numbers the transaction and asks one node of every cluster of resource managers to prepare
it; a node says "No" when a read is contradicted by its customer table. If all say yes, every node
commits: it pushes the logged writes, one at a time, through an admin queue into its customer table and
its replicated log, and then appends commit records to a log file and rewrites a record file. The admin
thread replicates each write to the node's peers, streams its whole log to a peer it finds again, and
promotes a backup that has to take over. A node that boots rebuilds its tables from the two files.

## How the model is laid out

| module | what it holds |
|---|---|
| `Records` | values, and `Fold`: what a sequence of updates does to a customer table |
| `WireCodec` | the transaction message: `Marshal`/`Unmarshal` on a byte buffer, and the specification they meet |
| `TextFiles` | the decimal text of the two files: printing, and reading with `>>` |
| `ResourceManager` | the node specification (`Node`) and the class `LaptopFactory` that meets it, loop by loop |
| `Coordinator` | the class `TransactionManager`, driving `LaptopFactory` objects; atomicity and agreement |
| `Replication` | primary and backup: lockstep, catch-up, promotion, commit handed over to the backup |
| `FailOver` | a primary and its backup over a run of transactions; the backup taking over, between transactions or in the middle of a commit |
| `ClusterRun` | arbitrary runs of a two-node cluster with lost messages, restarts and fail-overs |
| `CrashRecovery`, `CrashTheorems`, `CrashLosses` | one node step by step, with a crash possible between any two steps; what survives and what does not |
| `ClientWrites` | the client's read loop and its concurrent write threads |
| `Serializability` | clients reading anywhere, manager and n nodes as one interleaved machine |
| `Conservation` | order numbers add up, and each is given out once, over every run |
| `Progress` | clients whose reads no write overtakes get through |
| `AdminQueue` | the admin queue with any number of producers |

A method of a class is proved against a function on values (`View()` gives the value of a node), and the
theorems are about those functions. State machines (`ClusterRun`, `CrashRecovery`, `Serializability`,
`AdminQueue`) have an `Enabled` or `Possible` predicate, a step function and a `Trace` over a list of events; their
theorems hold for every list of events. They are tied back to the operations of the classes:
`CrashTheorems.CommitStepsRefine`, `PrepareStepsRefine`, `CopyStepsRefine` and `AbortStepsRefine` run the steps of one
message and arrive at what the method for it is specified by, `Serializability.TwoPhasesRefine` runs one
transaction of the machine and arrives at the records of the nodes after `PrepareAll` and `DecideAll`, and
`AdminQueue.CreateRefines` runs one request through the queue and arrives at what `CreateRegularLaptop` is specified
by. What a node puts on a connection is `wire`, message by message; `ReceiveFlow` is the thread at the other end, and
the `Wire` lemmas of `Replication` deliver the one to the other.
The outcomes of connections and replies are parameters (`Net`, `Env`, `connect`, `answer`), so each
theorem holds for every behaviour of the network it does not exclude by name.

## Where the code does less than one would expect

The repository's own README promises a backup synchronised with its primary, and the abort of every transaction
whose reads are out of date. The model follows the code; each difference below is stated as an exact
condition, most of them with a concrete instance beside it.

* A peer found again by catch-up misses the newest log entry, and later requests do not fill that hole.
  `Replication.HoleRun` says what the backup holds, `Replication.PromotedEqualsPrimary` and
  `Replication.HandOverAfterCatchUp` say exactly when promoting it, or committing at it, gives the primary's table;
  `Replication.HoleLosesAnOrder` is a run of two nodes that loses an order.
* A backup that promotes itself greets a restarted peer without a catch-up. `ClusterRun.StepSafe` says exactly when
  the first request then ends that peer with an index outside its log, `ClusterRun.PromotionOverruns` is such a run.
* A primary copies a prepare over the connection it replicates over. `ClusterRun.CopyCostsARequest`: after a copy
  the next write reaches no peer and marks it dead; only the write after it finds the peer again, by catch-up.
* A read of an absent customer is never checked. `Serializability.VoteCatchesStaleRead` says exactly which stale
  reads a vote catches, `Serializability.AbsentReadsLoseAnUpdate` is a run that loses an update, and
  `Conservation.OneTransactionAdds` and `Conservation.NoUpdateIsLost` say exactly when a transaction, and a whole
  run, adds all the orders placed. The same condition shows that a write thread ignores a negative number on record.
* Any answer but "No", also a broken connection's, passes for a yes. `Coordinator.AtomicIffLinksWork`: two-phase
  commit is atomic for every transaction exactly when every connection holds until the decision has arrived;
  `Coordinator.BrokenLinkSplits` takes a transaction through both loops over a connection that does not.
* A prepare does not overwrite an entry of the log table, and a restarted manager numbers from 0 again.
  `Coordinator.OwnWritesIffFreshId` says that a node commits the writes it was just sent exactly when the id is
  new to it; in `Coordinator.ReusedIdCommitsOldWrites` a node votes for and commits a transaction without its writes.
* A commit replaces the whole log table. `CrashLosses.CommitDiscardsOnlyDecided`: what it throws away is undecided
  exactly when a crash or a lost decision cut that transaction off after its prepare records; a backup never gets
  the decision about a copied prepare. `CrashLosses.DiscardsAnUndecided` gives a run for each of these ways.
* A backup applies replicated writes one by one and stores its whole table with its own next commit.
  `FailOver.StoredAfterFailOver` says exactly when what it stores after its primary failed in the middle of a commit
  contains that transaction wholly or not at all; in `FailOver.HalfATransactionStored` it contains half of it.
* Commit records are appended before the record file is rewritten, and recovery does not replay them.
  `CrashLosses.AllCommittedRecovered`: recovery brings back every transaction the log file calls committed exactly
  when no crash falls between the two; `CrashLosses.LosesACommittedWrite` is a run in which one does.
* The receiving stub calls `recv` once. `WireCodec.ReceivedExactlyWhenWhole`: it finds the message sent exactly when
  that call returns all of it.
* The sending stub marshals into 200000 bytes without asking whether the message fits. `WireCodec.Transaction.Marshal`:
  it stays inside exactly when 12 + 8r + 12w does, and `ClientWrites.ClientMessageFits` says from how many customers
  and orders on a client's message does not: 128 customers with 150 orders each are too many.
* A client that places orders without having read the customer counts from 1 again. `Conservation.NumbersNeverFall`:
  a customer's number never falls exactly when no transaction does this while more orders are on record.

## Model

| member | source | states |
|---|---|---|
| Records.ValidPrefixIsLongest | ServerThread.cpp:179-188 | the orders that are logged are the longest prefix without an unfilled order |
| Records.FoldLookup | ServerThread.cpp:563-569 | a customer's number after any updates is that of the last one naming it, else the old one |
| Records.LastWriteIsLast | ServerThread.cpp:563-569 | `LastWrite` is characterised by the last index naming the customer, independently of its recursion |
| Records.FoldConcat | ServerThread.cpp:213-237 | applying two runs of writes one after the other is applying their concatenation |
| Records.FoldAbsorbsPrefix | ServerThread.cpp:755-758 | replaying a log over a recovered state that holds any prefix of it gives the replay from scratch |
| Records.FoldDropOneElsewhere | ServerThread.cpp:451-460 | leaving one entry out is unseen by other customers, and by its own once that is written again |
| Records.FoldDropOne | ServerThread.cpp:451-460 | leaving one entry out changes nothing if and only if a later one writes its customer or it wrote the value already there |
| Records.FoldKeepsCustomers | ServerThread.cpp:519-522 | no update removes a customer |
| WireCodec.IntRoundTrip | Messages.cpp:260-271 | network byte order loses no signed 32-bit value |
| WireCodec.BytesRoundTrip | Messages.cpp:317-319 | every four bytes are the encoding of the value they are read as |
| WireCodec.BigEndian | Messages.cpp:260-262 | the first of the four bytes is the most significant, in two's complement |
| WireCodec.FieldAt | Messages.cpp:264-294 | which field stands at which offset: id, lengths, then customer and last order of each read, then customer, number and type of each order |
| WireCodec.DecodeEncode | Messages.cpp:299-356 | decoding undoes encoding whatever bytes follow, when the length fields match the vectors |
| WireCodec.EncodeDecode | Messages.cpp:257-297 | a buffer with non-negative counts begins with the encoding of the message decoded from it |
| WireCodec.Encode | Messages.cpp:251-255 | an encoding has 12 + 8r + 12w bytes, which is `Size()` when the length fields match |
| WireCodec.Transaction.PutInt | Messages.cpp:264-265 | one word goes behind those already written and leaves the rest alone, if it ends inside the buffer; else the overrun is reported |
| WireCodec.Transaction.Marshal | Messages.cpp:257-297 | all offsets stay inside the buffer if and only if 12 + 8r + 12w does; the buffer becomes the encoding, as far as it fits, followed by its old remaining bytes |
| WireCodec.Transaction.Unmarshal | Messages.cpp:299-356 | the object takes the decoded header and appends the decoded entries to its vectors |
| WireCodec.Transaction.TakeReads | Messages.cpp:323-336 | as many read records as announced are appended, none for a negative count |
| WireCodec.Transaction.TakeWrites | Messages.cpp:338-354 | the same for orders |
| WireCodec.ReceivedExactlyWhenWhole | ServerStub.cpp:62-67 | whatever the buffer held before, the message is found if and only if one `recv` returned all of it |
| WireCodec.Deliver | Socket.cpp:87-97 | one `recv` puts the part of the message it returns at the front of the receiver's buffer |
| WireCodec.Send | ClientStub.cpp:59-81 | the message fits the 200000 bytes if and only if its size does; then the part one `recv` returns arrives, and nothing behind it is touched |
| WireCodec.Receive | ServerStub.cpp:54-70 | the receiver's fresh object has the value sent |
| WireCodec.ClientToResourceManager | TransactionManager.cpp:24-41 | when each `recv` returns a whole message: a resource manager gets the client's transaction, with only the id replaced, if and only if it fits the buffers |
| TextFiles.ReadIntOf | ServerThread.cpp:708-708 | `>>` reads back every printed `int`, negative ones included, and stops right behind it |
| TextFiles.DigitsAre | ServerThread.cpp:683-683 | numbers are written in decimal, the most significant digit first, without leading zeros |
| TextFiles.LinesAre | ServerThread.cpp:644-644 | the lines of both files, field by field with their separators, and the sign of a negative number |
| TextFiles.ReadLineOf | ServerThread.cpp:683-683 | a printed line reads back field by field up to its newline |
| TextFiles.ParseLinesOf | ServerThread.cpp:708-718 | any number of lines of any width reads back, also behind an earlier newline |
| TextFiles.LogRoundTrip | ServerThread.cpp:708-716 | every sequence of log records survives being written and recovered |
| TextFiles.AppendLog | ServerThread.cpp:679-684 | appending text is appending records |
| TextFiles.InsertListing | ServerThread.cpp:755-758 | recovering a table into one that has entries keeps those entries |
| TextFiles.ListingAscends | ServerThread.cpp:638-645 | the record file lists exactly the table's entries, in ascending order of customer |
| TextFiles.StoreRoundTrip | ServerThread.cpp:638-645 | every customer table survives being written and recovered |
| ResourceManager.LaptopFactory.constructor | ServerThread.cpp:10-25 | a booted node has the tables its two files spell, an empty replicated log and no live peer |
| ResourceManager.LaptopFactory.RecoveryTxnLog | ServerThread.cpp:693-741 | the log table is the grouping by transaction of the records in the file |
| ResourceManager.LaptopFactory.RecoveryCustRec | ServerThread.cpp:742-771 | the customer table is what the file spells, the first entry of a customer winning |
| ResourceManager.LaptopFactory.StoreTxnLogRecord | ServerThread.cpp:663-691 | the file grows by exactly the text of the records |
| ResourceManager.LaptopFactory.StoreCustRecTxn | ServerThread.cpp:623-653 | the file becomes the text of the table in ascending order of customer |
| ResourceManager.LaptopFactory.StoreTxnLogInTxnMap | ServerThread.cpp:175-194 | the orders before the first unfilled one are logged; an entry already there stays |
| ResourceManager.LaptopFactory.CopyTranlogReplica | ServerThread.cpp:118-137 | each peer reached gets the prepare and counts as live, the others are untouched |
| ResourceManager.LaptopFactory.TMPrepare | ServerThread.cpp:139-173 | "Ok" exactly when no read is contradicted; logged and copied then, and nothing changes otherwise |
| ResourceManager.LaptopFactory.PeerPrepare | ServerThread.cpp:104-116 | a backup logs the prepare without checking it |
| ResourceManager.LaptopFactory.BecomePrimary | ServerThread.cpp:486-508 | promotion greets the reachable peers, closes any gap by applying only the last entry, and ends |
| ResourceManager.LaptopFactory.SendAllRequests | ServerThread.cpp:577-587 | one peer is sent every log entry in order, entry i announcing i - 1 as committed |
| ResourceManager.LaptopFactory.ReplicateTo | ServerThread.cpp:526-552 | one peer gets the request, the whole log if found again, or nothing; no other peer is touched |
| ResourceManager.LaptopFactory.ReplicateToPeers | ServerThread.cpp:524-552 | the loop does this for every peer by its liveness before the request |
| ResourceManager.LaptopFactory.AdminTurn | ServerThread.cpp:466-561 | one turn serves the head of the queue: promote if needed, log, apply, replicate, stamp the result |
| ResourceManager.LaptopFactory.CreateRegularLaptop | ServerThread.cpp:32-55 | whatever is queued before it, the caller gets its own order back, stamped, after those requests and then its own were served in order |
| ResourceManager.LaptopFactory.CommitWrites | ServerThread.cpp:208-239 | all logged writes go through the queue in order; new table and commit records are built beside |
| ResourceManager.LaptopFactory.TMCommit | ServerThread.cpp:196-300 | the whole new state of a commit: tables, replicated log, both files, and the order in which the files change |
| ResourceManager.LaptopFactory.TMAbort | ServerThread.cpp:322-346 | an abort adds one record to the table and to the file and nothing else |
| ResourceManager.LaptopFactory.IFAFlow | ServerThread.cpp:432-464 | a backup handles the messages of a connection up to its close or the first index outside its log |
| ResourceManager.LaptopFactory.ReceiveFlow | ServerThread.cpp:64-116 | the thread of a connection from a peer: identifications choose the flow, requests and copied prepares take effect only in theirs; node, thread and file afterwards |
| ResourceManager.LaptopFactory.ReadEngineerFlow | ServerThread.cpp:392-430 | the reads of a client connection, up to the first unfilled request |
| ResourceManager.AdminRunFolds | ServerThread.cpp:510-522 | on a node without a gap a commit adds its writes to the replicated log and folds them into the table, whatever the network does |
| ResourceManager.AdminRunKeeps | ServerThread.cpp:510-522 | a commit never opens a gap and leaves the log table alone |
| Coordinator.NewTxnLogIs | ServerThread.cpp:227-233 | the table a commit installs is its own transaction alone, each prepare followed by its commit |
| Coordinator.CommitKeepsLogBelow | ServerThread.cpp:264-264 | ids in the log table stay below the manager's counter over a commit |
| Coordinator.AbortKeepsLogBelow | ServerThread.cpp:335-340 | and over an abort, also of a transaction the node was never asked about |
| Coordinator.CommitAppliesWrites | ServerThread.cpp:213-237 | a yes vote and a commit apply exactly the valid prefix of the write set |
| Coordinator.OwnWritesIffFreshId | ServerThread.cpp:189-189 | a node commits the writes it was sent if and only if the id is new to it |
| Coordinator.ReusedIdCommitsOldWrites | TransactionManager.cpp:14-14 | concrete failure: of two transactions numbered 0 at a fresh node, the second is voted for and committed, and the first one's order is written again instead |
| Coordinator.BrokenLinkSplits | TransactionManager.cpp:36-59 | over any broken connection there is a transaction that both loops report as successful and that its node has not applied |
| Coordinator.AtomicIffLinksWork | TransactionManager.cpp:43-46 | however the two loops end, they are all or nothing for every transaction if and only if every connection holds to the end |
| Coordinator.LostNoIsAYes | TransactionManager.cpp:43-46 | concrete failure: a "No" that is lost passes for a yes |
| Coordinator.LoopsLogs | ServerThread.cpp:227-341 | what the two loops leave in every node's log table: after a success this transaction alone, after a failure its entry ended by (id, 3, -1, -1, -1) behind what was logged, every other entry kept |
| Coordinator.FailureIsDecided | ServerThread.cpp:333-340 | so after a failure every node still connected has decided, its prepares are those logged before, and no other transaction's entry has changed |
| Coordinator.TwoPhaseIsAtomic | TransactionManager.cpp:36-59 | both loops over all nodes, with the early break or without, over any connections: the transaction goes through unless a "No" is heard, and then exactly the nodes still connected apply it |
| Coordinator.RunsAgree | TransactionManager.cpp:100-102 | nodes that start equal vote alike and stay equal over every run; a transaction goes through exactly when all clusters can be reached and it agrees with the result of its predecessors |
| Coordinator.TransactionManager.Connect | TransactionManager.cpp:27-35 | a cluster's backup stands in for its primary; one cluster that is down ends the transaction |
| Coordinator.TransactionManager.PrepareAll | TransactionManager.cpp:36-48 | yes exactly when no node is heard to say "No"; nodes behind the first "No" are not asked |
| Coordinator.TransactionManager.DecideAll | TransactionManager.cpp:50-59 | every node still connected gets the decision, asked or not |
| Coordinator.TransactionManager.TwoPhases | TransactionManager.cpp:36-59 | the same for both loops on the node objects, leaving only ids below the next |
| Coordinator.TransactionManager.Handle | TransactionManager.cpp:16-66 | a cluster that is down means "Failed" and nothing changes; else each transaction goes to every cluster's primary, or to its backup where that is the route, and never to the other: "Success" exactly when none of these nodes is heard to say "No", and then each still connected applied exactly the valid writes, else no table changed; log tables as in `LoopsLogs`, the manager touches no other node, and what is on `wire` for their peers is still to be received |
| Coordinator.NodeServed | TransactionManager.cpp:50-59 | as long as no transaction goes to a backup, over any connections, every primary without a gap ends with exactly the successful transactions over which its connection held applied in order |
| Coordinator.RunAnswered | TransactionManager.cpp:27-47 | in such a run the answer to each transaction follows from what the primaries had applied before it |
| Coordinator.TransactionManager.ServeOne | TransactionManager.cpp:16-66 | one connection over any routes and connections, and then what arrives at the nodes from peers |
| Coordinator.TransactionManager.ServeAll | TransactionManager.cpp:100-102 | the accept loop over any requests, routes, connections and arrivals is a chain of such steps, and a reply is "Success" exactly when its transaction went through; while none goes to a backup and primaries receive nothing, both properties above hold, and on a calm network the replies are those of the serial run and every primary ends in its result |
| Coordinator.MixedStepServes | TransactionManager.cpp:27-35 | in such a chain, a transaction over any mixture of primaries and backups that stand where the serial run stands goes through exactly when it agrees with the serial run, and they then stand where it stands |
| Replication.SteadyFits | ServerThread.cpp:448-455 | at a backup in any state, a steady request is out of range if and only if its log is shorter than the primary's was |
| Replication.LockstepStep | ServerThread.cpp:432-463 | one replicated request keeps primary and backup equal, and the backup's commit mark is on the new entry |
| Replication.LockstepRun | ServerThread.cpp:510-550 | so does any number of them |
| Replication.StreamShape | ServerThread.cpp:447-460 | any prefix of a catch-up, at a backup in any state: no index out of range, and one entry of it not counted |
| Replication.CatchUp | ServerThread.cpp:577-587 | an empty backup ends with the same log and everything but the last entry applied |
| Replication.AdminWire | ServerThread.cpp:486-552 | the messages of one admin request to each peer, in full: greeting, request or whole log, each field of each |
| Replication.SentIsOnWire | ServerThread.cpp:526-552 | the requests the theorems deliver are those one admin request puts on the connection |
| Replication.WireIsPeerRun | ServerThread.cpp:541-550 | on a connection in the flow of a primary, delivering what is on it is the run of requests at the backup |
| Replication.WireKeepsLockstep | ServerThread.cpp:541-550 | what any number of requests puts on the connection, delivered, keeps the backup in lockstep |
| Replication.WireAfterPromotion | ServerThread.cpp:486-508 | a promotion's greeting opens the connection its first request arrives on, whatever the peer had before |
| Replication.WireLeavesHole | ServerThread.cpp:528-550 | what a catch-up and any further requests put on the connection, delivered, leaves the backup with exactly the hole of the first |
| Replication.WireCopies | ServerThread.cpp:118-137 | a copied prepare, delivered, is stored without a vote and changes nothing else; a request behind it on that connection reaches no log |
| Replication.CatchUpThenPromote | ServerThread.cpp:502-507 | promotion after a catch-up restores the primary's table, also over a recovered proper prefix |
| Replication.CatchUpLeavesHole | ServerThread.cpp:528-539 | the request that finds a fresh peer again leaves that request unapplied there |
| Replication.HoleRun | ServerThread.cpp:541-550 | any further requests keep exactly that one entry left out of the backup's table and its gap at 1 |
| Replication.CatchUpThenRun | ServerThread.cpp:526-552 | the same from the first message of the catch-up on |
| Replication.HoleIsLocal | ServerThread.cpp:455-459 | only the customer of the missed entry can see it, and only until it is written again |
| Replication.PromotedEqualsPrimary | ServerThread.cpp:504-507 | exactly when promoting such a backup gives the primary's table |
| Replication.HoleLosesAnOrder | ServerThread.cpp:451-460 | concrete failure: a primary serves two orders, the first by catch-up; both nodes have logged both, and the promoted backup lacks the first |
| Replication.PromotingRunFolds | ServerThread.cpp:486-522 | a backup's first request settles its gap before any write of its own |
| Replication.HandOverInLockstep | ServerThread.cpp:104-116 | a backup in lockstep commits a copied prepare with the primary's result and commit records |
| Replication.HandOverAfterCatchUp | ServerThread.cpp:196-239 | a backup with a hole does so if and only if it writes before any request followed, or the missed customer is written later, or the missed entry changed nothing |
| FailOver.PairServes | ServerThread.cpp:447-460 | while a primary leads and its messages arrive, any run of transactions, committed, aborted, undecided or not reached, keeps it and its backup in lockstep with each other and with the serial effect of those committed |
| FailOver.BackupTakesOver | TransactionManager.cpp:27-35 | after any such run the backup votes as the primary would have, and its first commit continues the serial run |
| FailOver.MixedNodesServe | TransactionManager.cpp:29-35 | the manager's transaction over any mixture of primaries and backups that took over goes through exactly when it agrees with the serial run, and every node continues it |
| FailOver.UnseenExactly | ServerThread.cpp:519-522 | writes leave no trace under later ones if and only if each customer they write is written again or had that value before |
| FailOver.StoredAfterFailOver | ServerThread.cpp:287-291 | after the primary failed k writes into a commit, the table stored with the backup's next commit holds that transaction not at all, or wholly, if and only if the part that arrived, or the part missing, leaves no trace |
| FailOver.HalfATransactionStored | ServerThread.cpp:432-463 | concrete run: the table stored and recovered has one of the failed transaction's two orders |
| ClusterRun.StepSafe | ServerThread.cpp:447-460 | an index is out of range if and only if a promoting node reaches a peer with a shorter log; every other step keeps indices in range and gaps equal to the catch-ups begun, and a primary that served has no gap |
| ClusterRun.RunsAreSafe | ServerThread.cpp:504-550 | so does every run, with any copied prepare, loss, restart, fail-over and repeated catch-up: nothing but such a promotion ends a node |
| ClusterRun.CopyCostsARequest | ServerThread.cpp:118-137 | after a copied prepare the next request reaches no peer and marks the peer dead, unless a promotion opened a new connection |
| ClusterRun.PromotionOverruns | ServerThread.cpp:491-500 | concrete run: catch-up, fail-over, restart, and the first request of the promoted backup ends the restarted node |
| ClusterRun.StartIsSafe | ServerThread.cpp:10-25 | two booted nodes satisfy the invariant whatever their files held |
| CrashRecovery.GroupIs | ServerThread.cpp:708-718 | recovery files each record under its transaction, in file order, and nothing else |
| CrashRecovery.ShapeKept | ServerThread.cpp:196-341 | every step and every crash keeps what table and file hold of the current transaction, and all ids below the counter |
| CrashTheorems.StepKeepsInv | ServerThread.cpp:139-346 | all invariants of the crashing node survive every step and every crash |
| CrashTheorems.RunsKeepInv | ServerThread.cpp:139-346 | and so every run |
| CrashTheorems.CrashAtomicity | ServerThread.cpp:623-653 | wherever a node that no primary has replicated to crashes, it recovers the fold of whole write sets of an increasing list of transactions, each with all its commit records |
| CrashTheorems.OneHistory | ServerThread.cpp:213-237 | at such a node replicated log, commit records since boot and committed write sets are one sequence whose fold is the table; mid-commit the log leads by the applied prefix |
| CrashTheorems.DecisionsConsistent | ServerThread.cpp:287-341 | no transaction has commit and abort records, every commit record has an earlier matching prepare, all ids are below the counter |
| CrashTheorems.PairedAgrees | ServerThread.cpp:302-320 | interleaving prepares and commits, as in memory, against grouping them, as on file: same prepares, same decisions, same multiset |
| CrashTheorems.RecoveredLogAgrees | ServerThread.cpp:693-718 | between messages every entry in memory agrees with the one rebuilt from the file |
| CrashTheorems.BootReadsFiles | ServerThread.cpp:742-758 | the crash step is what booting from the two texts does |
| CrashTheorems.CommitStepsRefine | ServerThread.cpp:196-300 | the steps of a commit, run through, reach the state `TMCommit` is specified by |
| CrashTheorems.CommitFilesRefine | ServerThread.cpp:287-291 | and change the files in the order of `TMCommit`: the commit records first, then the table with all writes applied |
| CrashTheorems.PrepareStepsRefine | ServerThread.cpp:139-194 | the steps of a yes vote reach what `TMPrepare` leaves, with one record (id, 1, customer, number, type) on file for each logged order |
| CrashTheorems.CopyStepsRefine | ServerThread.cpp:104-116 | the steps of a copied prepare reach what the receiving thread leaves |
| CrashTheorems.AbortStepsRefine | ServerThread.cpp:322-346 | the steps of an abort reach what `TMAbort` leaves, with (id, 3, -1, -1, -1) behind the entry and the file |
| CrashTheorems.FileText | ServerThread.cpp:679-684 | the text the class appends for these records is read back as the machine's log |
| CrashLosses.UndecidedExactlyOrphans | ServerThread.cpp:322-341 | a transaction on file is undecided if and only if a crash or a lost decision cut it off, or it is the current one before its decision is written |
| CrashLosses.CommitDiscardsOnlyDecided | ServerThread.cpp:264-264 | another transaction's records that a commit throws away are undecided if and only if a crash or a lost decision cut it off; without either they are decided |
| CrashLosses.AllCommittedRecovered | ServerThread.cpp:287-291 | recovery brings back every transaction with commit records on file if and only if no crash falls between these records and the rewrite |
| CrashLosses.DiscardsAnUndecided | ServerThread.cpp:104-116 | concrete runs in which an undecided transaction is thrown away, prepared after a vote or as a copy, cut off by a crash or by a lost decision |
| CrashLosses.LosesACommittedWrite | ServerThread.cpp:287-291 | concrete run in which a write the file calls committed is not recovered |
| ClientWrites.ClientThread.ThreadBody | ClientThread.cpp:8-46 | the read set is the answers for customers 0, 1, ... up to and including the first absent one |
| ClientWrites.ClientThread.ThreadBodyWriteRequest | ClientThread.cpp:48-78 | one thread pushes consecutive numbers behind the last order it read |
| ClientWrites.ReadsAreIndexed | ClientThread.cpp:24-38 | all but the last read are present and sit at their customer's index |
| ClientWrites.ProjectionIsProgress | ClientThread.cpp:65-77 | after any schedule, a customer's part of the write set is the prefix its thread has pushed |
| ClientWrites.CompleteProjection | ClientThread.cpp:69-74 | after any complete schedule it is all of the thread's orders, in order |
| ClientWrites.ThreadOrdersAre | ClientThread.cpp:65-73 | a thread's orders are numbered last + 1, last + 2, ... in this order |
| ClientWrites.ClientOrdersAre | ClientThread.cpp:56-75 | after any complete schedule a customer's part of the write set is exactly those numbers, in order |
| ClientWrites.LastWriteOfProject | ServerThread.cpp:563-569 | what a write set does to a customer depends on that customer's part alone |
| ClientWrites.ScheduleIndependence | ClientMain.cpp:67-80 | any two complete schedules have the same effect on every table |
| ClientWrites.CompleteScheduleExists | ClientMain.cpp:78-80 | whatever the threads have to push, they can all finish |
| ClientWrites.ClientMessageFits | ClientMain.cpp:89-100 | under every complete schedule the write set has customers times orders entries, so the message fits the buffers if and only if 12 + 8r + 12 times that does |
| Serializability.FirstKnowsAll | TransactionManager.cpp:50-59 | the first node to commit knows every customer any node knows, at every step |
| Serializability.StepKeepsInv | TransactionManager.cpp:16-66 | every read, submission, vote and single write keeps the invariant of the whole system |
| Serializability.RunsKeepInv | TransactionManager.cpp:100-102 | and so does every run |
| Serializability.CommittedReadsAreSerial | ServerThread.cpp:145-152 | every read of a present customer by a committed transaction, answered by a node that commits or by a backup however far behind, is the value the serial run of its predecessors, in id order, leaves |
| Serializability.StoresAreSerial | ServerThread.cpp:510-522 | outside commits every node holds the serial run of the committed transactions |
| Serializability.VoteCatchesStaleRead | ServerThread.cpp:147-147 | a vote catches a stale read if and only if the customer was present when read or is still absent |
| Serializability.AbsentReadsLoseAnUpdate | ServerThread.cpp:410-422 | concrete run: two clients read an absent customer, both commit, one order is lost |
| Serializability.TwoPhasesRefine | TransactionManager.cpp:36-65 | one transaction of the machine, run without interruption, ends in the records the nodes have after the manager's two loops, logged entries looked up by id included |
| Serializability.AppliedIsSerial | TransactionManager.cpp:60-65 | the two ways of writing the result of a run, by replies and by committed transactions, agree |
| Conservation.ReadsCoverWrites | ClientThread.cpp:56-62 | exactly when a client has read, as present, every customer it writes |
| Conservation.ClientReadsIndexed | ClientThread.cpp:24-38 | the reads a client collects sit at their customer's index or are absent |
| Conservation.BuiltLastWrite | ClientThread.cpp:56-77 | under every schedule, whatever was read, the write set leaves a customer at the number continued from plus the orders placed |
| Conservation.OneTransactionAdds | ClientThread.cpp:57-69 | a committed transaction adds exactly the orders placed if and only if it places none, or the number on record is 0 or absent, or it is positive and was read; it never adds more to a number that is not negative; it makes the number fall if and only if it places fewer than are on record without having read them |
| Conservation.SerialConserves | ServerThread.cpp:510-522 | over a serial history the number is at most the initial one plus all orders placed, and equal if and only if each transaction met that condition |
| Conservation.NoUpdateIsLost | TransactionManager.cpp:50-59 | the same at every node, outside commits, of every interleaved run |
| Conservation.CoveredLoseNothing | ClientThread.cpp:56-62 | so nothing is lost in any run whose clients read, as present, every customer they write |
| Conservation.NumbersGivenOnce | ClientThread.cpp:65-73 | over a serial history in which all meet that condition, a customer's committed orders carry the numbers behind the initial one, each once and in order |
| Conservation.NumbersGivenOnceInRuns | TransactionManager.cpp:100-102 | and over every such run |
| Progress.ServerAnswers | ServerThread.cpp:408-420 | the server answers each of a client's questions with the number on record, or (-1, -1) |
| Progress.QuietRun | ServerThread.cpp:410-422 | while no write falls, what a client has read is exactly the truth about the tables |
| Progress.UndisturbedCommits | TransactionManager.cpp:36-65 | from every reachable state without a commit under way, a client whose reads no write overtakes commits, whatever it read and writes and whatever other clients read |
| Progress.UndisturbedAdds | ClientThread.cpp:56-75 | and every customer it asked about ends at the number before plus the orders it places |
| Conservation.FallsAt | ClientThread.cpp:56-69 | which transaction of a history makes a number fall, exactly |
| Conservation.NumbersNeverFall | TransactionManager.cpp:100-102 | over a run a customer's number never falls between transactions if and only if there is no such transaction |
| AdminQueue.StepKeepsInv | ServerThread.cpp:469-557 | every step of producers and admin thread keeps the queue's invariant |
| AdminQueue.ServedInOrder | ServerThread.cpp:32-55 | the replicated log is the requests in the order enqueued, each once, and all of them once the queue is drained; the table is its fold |
| AdminQueue.WokenWithOwnOrder | ServerThread.cpp:554-557 | a producer is released with its own order, and only after the write was applied and replication attempted |
| AdminQueue.CreateRefines | ServerThread.cpp:32-55 | one request through the queue behind any backlog, step by step: table, replicated log and answer are those of `CreateRegularLaptop` |

## Left out

- Coordinator.TransactionManager.Handle: a counter that has reached the largest `int` is excluded because the increment would overflow. A broken connection answers the prepare with a string other than "No"; the unset reply buffer the stubs may read then (ClientStub.cpp:75-79, 83-90) is not modelled.
- Coordinator.TwoPhaseIsAtomic: the applied writes are stated for nodes without a replication gap; what a node with a gap ends up with is in `Replication.HandOverAfterCatchUp` and `Replication.PromotingRunFolds`.
- Coordinator.TransactionManager.ServeAll: what arrives at the nodes between two connections is a parameter, so that it covers whatever peers send and lose; that it is what they put on `wire` is said in `FailOver.PairServes` and `Replication`. A node that has ended with an exception takes no further message, and that its links then break is up to the environment.
- CrashTheorems.CrashAtomicity: replicated requests are no event of the crashing node; what they do to atomicity is in `FailOver.StoredAfterFailOver`, and to the table after a crash of the backup nothing, since it is stored only with a commit.
- ResourceManager.LaptopFactory.TMCommit: starts with an empty admin queue, as the manager serves one transaction at a time; the general interleaving is `AdminQueue`.
- ClusterRun.RunsAreSafe: a run ends where a node is ended by an exception. The peer of a connection opened for a copied prepare takes the bytes of a request for an identification it does not know and closes (ServerThread.cpp:64-114); a factory id whose bytes spell one is not modelled.
- Replication.CatchUp: repeating a catch-up on a backup whose log is not empty appends the log again; only the index and gap statements (`Replication.StreamShape`, `ClusterRun`) hold there, no statement on contents.
- Replication.HandOverInLockstep: a delivered copy of the prepare is assumed; what the connection shared by copied prepares and replication requests does to the requests is in `ClusterRun.CopyCostsARequest`.
- ClientWrites.ClientThread.ThreadBodyWriteRequest: order numbers beyond the largest `int` are excluded, as the addition would overflow.
- WireCodec.Transaction.Marshal: the code writes on behind the end of the buffer, where it has no defined meaning; the model stops there and reports it.
- WireCodec.Transaction.Unmarshal: the buffer must hold as many entries as its header announces; the code reads on behind the buffer otherwise. The heap buffer the stubs allocate and never free is an array without a lifetime.
- Serializability.CommittedReadsAreSerial: a run without fail-over; a backup that has taken over is in `FailOver.BackupTakesOver`.
- File system: each append and each rewrite is atomic, a missing file reads as empty, and a file that cannot be opened (the process exits) does not occur.
- Sockets: connection setup, partial sends, the 10-byte identification and reply messages, the recursion of `ReceiveIDMsgAndInitiateFlow` on closed sockets, and the stubs that send raw structs (`ReplicationRequest`, `CustomerOrder`, `CustomerRecord`).
- Locks: each step of a machine is what one lock protects or one thread does alone; data races outside the locks have no meaning in C++ and none here.
- `EngineerFlow` (never dispatched), the commented-out `apply_txn_cust_log`, `empty_log_file`, `printIndices`, `LaptopInfo` marshalling, plain getters and setters: they would add only easy members.
- `Experimental.cpp` and `ThreadBodyReadRequestSingle`: their read set has one element but is indexed by customer, so conservation does not apply to them.
- Command lines, printing and `ClientTimer`.
- Log indices are unbounded integers; a log of more than 2^31 entries is not modelled.
