# Redis 3.2.6 and hiredis in Dafny

A model of the hard parts of the vendored Redis server and of the hiredis client library, with proofs.  Nothing was
executed: every statement below is a theorem about the model, for all inputs, all runs or all reachable states.

**Cluster** (`Cluster*.dfy`).  `ClusterView` gives every handler of the cluster bus as a function on one node's view,
`ClusterNet` the network: many nodes, a bag of packets in flight, delivery in any order, loss, cron ticks, operator
commands.  `ClusterEpochs` bounds all epochs, `ClusterElection` proves election safety and the exact condition it
needs, `ClusterStaleAck` is a run that breaks it without, `ClusterCollision` shows that epoch repair ends and leaves
all masters different, `ClusterClaims` shows when slot claims converge, `ClusterLostClaims` how they fail to.
`ClusterOwnership` gives the reasons for which a slot ever changes its owner and what a failover takes, `ClusterVotes`
exactly when votes are given, asked for and won by.
`ClusterAgreement` gives election safety from what the views agree on.  `ClusterState` is the same node as a class with
its slot array, bitmaps and counters updated in place, `ClusterPackets` the packets on it, each proved to do what the
view function says; `ClusterRuns` is whole runs of it from initialisation, `ClusterScenarios` runs with a failover, a
vote and an import.

**Append only file** (`Aof*.dfy`).  `AofParent` is the server side (buffer, flush, rewrite buffer in blocks),
`AofMachine` the whole system with the rewriting child, the pipe and the handshake, `AofLoader` the loader,
`AofMalformed` what it does with files that are no logs.

**RESP client** (`Resp*.dfy`, `Async*.dfy`).  `RespParser` is the parser as a machine on a stack of tasks,
`RespReader` the reader object that runs it on its buffer, `RespFormat` the encodings, the command formatters and the
round trips, `RespTree` exactly which trees come back.  `AsyncMachine` is the asynchronous client on values, with callbacks that call back into it and the laws of
its runs; `AsyncContext` the linked callback queue and the flags updated in place, proved to follow that machine.

**Data structures and arithmetic.**  `Dict`, `DictBits`, `DictIterator`: the chained hash table with linked entries.
`AdList`, `BioQueue`: the doubly linked list and the background job queue under it.  `SdsQuote`, `SdsWords`: quoting
and splitting.  `Bitfield`, `BitfieldOps`, `BitfieldReplies`: BITFIELD.  `Popcount`, `Bitpos`, `Bitop`: the fast bit routines.  `Crc64`, `Crc64Table`,
`DumpPayload`: the checksum and the DUMP footer.

## What does not hold, and exactly when it does

- *At most one winner per epoch.*  An ACK that arrives after the vote counter is reset (cluster.c:2777) and before the
  next election epoch is set (2838) is counted for the new election.  `ClusterStaleAck.StaleAckBreaksSafety` gives the
  run; `ClusterElection.StaleAckExactly` says that exactly such ACKs spoil a tally; without them
  `ClusterElection.OneWinnerPerEpoch` holds.
- *Claims converge under UPDATEs alone.*  The header of an UPDATE records its sender's configEpoch (1600-1612), and a
  later UPDATE about that sender is then dropped as old (1961), so its slots are never rebound.  For the same reason an
  UPDATE that a node sends about itself never takes effect.  `ClusterLostClaims.ClaimStaysLost` gives the exchange,
  `ClusterLostClaims.UpdatesCanLoseAClaim` the packets on a blank receiver, `ClusterClaims.ConvergesExactly` the exact
  condition.
- *A slave survives every claim.*  With no known master, curmaster is NULL and equals the owner of an unassigned slot
  (1493), and line 1511 follows it (`ClusterLostClaims.OrphanStops`); and a slave that ADDSLOTS gave a slot fails the
  assertion of clusterSetMaster (`ClusterLostClaims.ServingSlaveStops`).  `ClusterClaims.UpdateStopsExactly` has the
  exact condition.
- *clusterDelNodeSlots returns the number of deleted slots* (comment at 3437-3438).  It counts every slot
  (`ClusterState.NoneFreed`); `ClusterState.DeletedCountsExactly` says when the two agree.
- *Every array count is usable.*  hiredis keeps the count in an int.  An announced 2^31 fails at the first element
  (`RespFormat.TwoGigaElements`); an announced 2^32 + 1 comes back as an array of one, and what follows as replies of
  their own (`RespTree.FourGigaAndOne`, in general `RespTree.CountIsCut`).  Exactly the counts below 2^31 are usable
  (`RespTree.CountUsableExactly`).
- *Any reply tree parses back.*  Nine array levels fail (`RespFormat.NineLevelsFail`), and so does a line that holds
  CR LF (`RespFormat.LineEndIsLost`), wherever in the tree.  `RespTree.TreeRoundTrip` has the exact condition.
- *Any word can be quoted.*  Between apostrophes a backslash before the closing one escapes it, so a word that ends in a
  backslash cannot be written so (`SdsWords.BackslashIsLost`), nor one that holds a NUL.  In double quotes every word
  can.  `SdsWords.WordExactly` has the exact condition for each form.
- *A saturating SET clamps.*  An unsigned SET converts its value to 64 bits first, so a negative one stores the maximum
  (`BitfieldOps.SaturatedMinusOne`); a signed SET takes a value for an overflow when its distance to the maximum leaves
  64 bits (`BitfieldOps.SaturatedLowest`), although the comment at bitops.c:322-324 rules that out.
  `BitfieldOps.SetClampsExactly` has the exact condition.

The bound on epoch repair holds with room to spare: a master with k larger names takes at most k new epochs
(`ClusterCollision.RepairsTerminate`), not 2^k - 1.

## Model

| member | source | states |
|---|---|---|
| `ClusterEpochs.EpochsStayBounded` | installs/redis-3.2.6/src/cluster.c:1600-1612 | In every state of every run, each configEpoch a node records or has in flight is at most the currentEpoch that node holds or the same header carries |
| `ClusterEpochs.StepKeepsEpochInv` | installs/redis-3.2.6/src/cluster.c:1541-1990 | Every event (delivery, loss, cron, operator command, PING) keeps that bound and the shape of every view |
| `ClusterEpochs.BumpIsFresh` | installs/redis-3.2.6/src/cluster.c:926-987 | clusterGetMaxEpoch never exceeds currentEpoch, so a unilateral bump takes an epoch above every one on record, and is skipped exactly when this node already holds the top one |
| `ClusterElection.GrantAtRequestEpoch` | installs/redis-3.2.6/src/cluster.c:2466-2566 | A vote is granted only at exactly the epoch of the request, and the ACK carries that epoch |
| `ClusterElection.CountedAtElectionEpoch` | installs/redis-3.2.6/src/cluster.c:1928-1940 | An ACK that passes the epoch comparison carries exactly the epoch of the last election this node started |
| `ClusterElection.StepKeepsElectionInv` | installs/redis-3.2.6/src/cluster.c:1541-1990 | Every event keeps: one vote per master and epoch, one ACK per vote not yet counted, the counter equal to the distinct votes received, every win backed by a majority |
| `ClusterElection.RunKeepsElectionInv` | installs/redis-3.2.6/src/cluster.c:2704-2869 | The election invariant holds after every run from a quiet start |
| `ClusterElection.OneWinner` | installs/redis-3.2.6/src/cluster.c:2850 | Two majorities drawn from one set of masters share a voter, and that voter voted once |
| `ClusterElection.ElectionSafety` | installs/redis-3.2.6/src/cluster.c:2704-2869 | In any run, two winners of one epoch whose votes all belong to that epoch and come from one agreed set of masters are the same node |
| `ClusterElection.StaleAckExactly` | installs/redis-3.2.6/src/cluster.c:2770-2845 | One event makes a tally hold a vote of another epoch if and only if it is an ACK counted while failover_auth_sent is 0 |
| `ClusterElection.OneWinnerPerEpoch` | installs/redis-3.2.6/src/cluster.c:2704-2869 | With no such ACK and one agreed set of voting masters, every epoch has at most one winner |
| `ClusterAgreement.AgreementIsSafe` | installs/redis-3.2.6/src/cluster.c:2704-2869 | The same from the views: if in every state of the run each node counts the masters right and votes only as one of them, every epoch has at most one winner |
| `ClusterStaleAck.StaleAckBreaksSafety` | installs/redis-3.2.6/src/cluster.c:2770-2845 | Without that condition safety fails: a fifteen event run from a quiet start, three voters, two winners of epoch 2 |
| `ClusterSteps.PingRecords` | installs/redis-3.2.6/src/cluster.c:1872-1879 | What a PING can change: the receiver's own epoch only by repairing a collision with a larger name, other records only to what a header said |
| `ClusterSteps.StepDescribed` | installs/redis-3.2.6/src/cluster.c:1541-1990 | Every event is one of the described moves, over all handlers |
| `ClusterCollision.RepairsTerminate` | installs/redis-3.2.6/src/cluster.c:1035-1050 | In any run from a fresh network whose epochs change only by repair, a node with k larger names uses at most k epochs beside its first one, however stale the views |
| `ClusterCollision.UsedAboveBound` | installs/redis-3.2.6/src/cluster.c:1035-1050 | The k largest names together use at most k epochs |
| `ClusterCollision.CollisionMoves` | installs/redis-3.2.6/src/cluster.c:1872-1879 | An up-to-date PING from a larger name with the same epoch makes the receiver move |
| `ClusterCollision.QuietMastersDiffer` | installs/redis-3.2.6/src/cluster.c:1872-1879 | Once master i has processed a PING that a larger-named master sent since the last move, their configEpochs differ |
| `ClusterCollision.AllMastersDiffer` | installs/redis-3.2.6/src/cluster.c:1035-1050 | In any run from a fresh network, once every master has heard from every larger-named one since the last move, all configEpochs differ |
| `ClusterClaims.RebindIsBest` | installs/redis-3.2.6/src/cluster.c:1465-1502 | Rebinding adds a claim to the claims the table is the best of: every slot belongs to its highest-epoch claimant |
| `ClusterClaims.SkipIsSound` | installs/redis-3.2.6/src/cluster.c:1811-1826 | Skipping a claim whose bitmap already matches leaves the table the best of the claims including it |
| `ClusterClaims.ReceiveTable` | installs/redis-3.2.6/src/cluster.c:1808-1826 | One PING, PONG or UPDATE keeps the table the best of the claims that took effect |
| `ClusterClaims.ClaimsConverge` | installs/redis-3.2.6/src/cluster.c:1442-1502 | After any sequence of deliveries, with repeats, the table is the best of the claims that got through, and the process is still up |
| `ClusterClaims.ConvergesExactly` | installs/redis-3.2.6/src/cluster.c:1953-1974 | Every delivered claim is honoured if and only if the highest-epoch claimant of every slot got through: by its own PING, or by an UPDATE that no UPDATE it had itself sent came before |
| `ClusterClaims.PingsSuffice` | installs/redis-3.2.6/src/cluster.c:1808-1826 | If each claim is PINGed at least once, in any order among other packets, each slot ends with its highest-epoch claimant |
| `ClusterLostClaims.UpdatesCanLoseAClaim` | installs/redis-3.2.6/src/cluster.c:1600-1612 | UPDATEs alone can lose a claim: the header of an UPDATE records its sender's epoch, so a later UPDATE about that sender is dropped |
| `ClusterLostClaims.ClaimStaysLost` | installs/redis-3.2.6/src/cluster.c:1841-1866 | The exchange as nodes send it: a returning master PINGs two others, each answers with an UPDATE about the other, and the second changes nothing however often it comes |
| `ClusterLostClaims.UpdatesAreDisjoint` | installs/redis-3.2.6/src/cluster.c:1841-1866 | What an UPDATE says about another node never overlaps the slots its own header claims |
| `ClusterLostClaims.OrphanStops` | installs/redis-3.2.6/src/cluster.c:1493-1511 | A node told to replicate one still in handshake, which is then dropped (3093), is a slave with no known master; it stops when any slot unassigned here is claimed |
| `ClusterLostClaims.ServingSlaveStops` | installs/redis-3.2.6/src/cluster.c:3638-3640 | An empty master that is made a slave and then given a slot stops when its master loses its last one |
| `ClusterClaims.UpdateStopsExactly` | installs/redis-3.2.6/src/cluster.c:1458-1515 | When a claim stops the process: exactly on a slave with no known master that sees an unassigned slot claimed, or on a slave serving slots whose master loses its last one |
| `ClusterOwnership.ReplaceExactly` | installs/redis-3.2.6/src/cluster.c:2666-2698 | Replacing a master gives this node exactly its slots, leaves every other owner and every epoch, and makes the node a master |
| `ClusterOwnership.TakenSlots` | installs/redis-3.2.6/src/cluster.c:2677-2682 | So the old master has none left, this node its own and those, every other node what it had |
| `ClusterOwnership.WinExactly` | installs/redis-3.2.6/src/cluster.c:2850-2865 | A won election takes exactly the master's slots, under the greater of its configEpoch and that of the election |
| `ClusterOwnership.TakeoverExactly` | installs/redis-3.2.6/src/cluster.c:4303-4310 | FAILOVER TAKEOVER takes exactly the master's slots, under a new epoch when the node's is not the greatest known |
| `ClusterOwnership.WinGivesWhatWasAsked` | installs/redis-3.2.6/src/cluster.c:2125-2137 | What a slave asks votes for is what winning gives it |
| `ClusterOwnership.OwnersChangeForAReason` | installs/redis-3.2.6/src/cluster.c:1541-1990 | Over all events: an owner changes in a view only by a claim with a greater epoch, a role change of a known sender, a won election, or the command that names it |
| `ClusterOwnership.OwnersInRun` | installs/redis-3.2.6/src/cluster.c:1541-1990 | The same at every step of every run of the network |
| `ClusterOwnership.FailoversInRun` | installs/redis-3.2.6/src/cluster.c:2666-2698 | At every step of every run, a won election and a TAKEOVER take exactly the slots of the old master |
| `ClusterVotes.VoteExactly` | installs/redis-3.2.6/src/cluster.c:2466-2566 | A vote is granted if and only if the node is a master with slots that has not voted at the epoch of the request, the requester is a slave of a known master that failed or is failed over by hand and had no vote within twice the timeout, and no claimed slot is recorded under a greater configEpoch |
| `ClusterVotes.StaleClaimantRefused` | installs/redis-3.2.6/src/cluster.c:2541-2557 | A slave one of whose slots has a newer owner is refused, whatever else holds |
| `ClusterVotes.VotesWereRight` | installs/redis-3.2.6/src/cluster.c:2466-2566 | In any run, every vote on record was cast when all of that held at the voter |
| `ClusterVotes.IdleExactly` | installs/redis-3.2.6/src/cluster.c:2728-2761 | A tick does nothing if and only if there is no cause: a slave with fresh data or by hand, of a known master that serves slots and has failed or is failed over by hand |
| `ClusterVotes.HealthyMasterStays` | installs/redis-3.2.6/src/cluster.c:2731-2734 | A slave of a healthy master does nothing without a manual failover |
| `ClusterVotes.AsksInTime` | installs/redis-3.2.6/src/cluster.c:2833-2845 | Votes are asked for once per election, in its time, at the next epoch |
| `ClusterVotes.WinsExactly` | installs/redis-3.2.6/src/cluster.c:2850 | An election is won if and only if there is a cause, votes were asked for, its time has come and is not over, and more than half of the masters answered |
| `ClusterVotes.WinsWereRight` | installs/redis-3.2.6/src/cluster.c:2850-2865 | In any run, every win on record was such a win |
| `ClusterVotes.UpdateIsNews` | installs/redis-3.2.6/src/cluster.c:1841-1866 | An UPDATE goes back exactly when a claimed slot is recorded for another node under a greater epoch, and it is about such a node |
| `ClusterBitmap.OneBitChanges` | installs/redis-3.2.6/src/cluster.c:3339-3357 | Setting or clearing a bit changes that bit of the map and no other |
| `ClusterBitmap.BitmapsEqualAsSets` | installs/redis-3.2.6/src/cluster.c:1817-1819 | Two bitmaps are equal byte by byte exactly when they hold the same slots |
| `ClusterState.CountersAddUp` | installs/redis-3.2.6/src/cluster.c:3377-3407 | All nodes' numslots together are the number of assigned slots |
| `ClusterState.GiveSlotTable` | installs/redis-3.2.6/src/cluster.c:3418-3423 | Giving an unassigned slot keeps bit, owner table and counters in step |
| `ClusterState.NoneFreed` | installs/redis-3.2.6/src/cluster.c:3437-3447 | No slot is freed for a node without slots, where the number returned is that of all slots |
| `ClusterState.DeletedCountsExactly` | installs/redis-3.2.6/src/cluster.c:3437-3447 | The number clusterDelNodeSlots returns is the number of slots freed if and only if the node had all of them |
| `ClusterState.TakeSlotTable` | installs/redis-3.2.6/src/cluster.c:3428-3435 | Taking an assigned slot back keeps them in step, so the assertion in clusterDelSlot holds |
| `ClusterState.Cluster.AddNode` | installs/redis-3.2.6/src/cluster.c:844-850 | A node not known yet gets a record without slots; a known one is refused; the table stays consistent |
| `ClusterState.Cluster.AddSlot` | installs/redis-3.2.6/src/cluster.c:3418-3423 | Assigns a free slot, refuses an assigned one; bit j of n is set exactly when slots[j] is n, before and after |
| `ClusterState.Cluster.DelSlot` | installs/redis-3.2.6/src/cluster.c:3428-3435 | Frees an assigned slot, refuses a free one; its assertion cannot fire |
| `ClusterState.Cluster.DelNodeSlots` | installs/redis-3.2.6/src/cluster.c:3439-3447 | Exactly the slots of that node are freed; the number returned is always that of all slots |
| `ClusterState.Cluster.RebindSlots` | installs/redis-3.2.6/src/cluster.c:1465-1502 | The loop over all slots gives the claimant exactly the slots the rule rebinds, and collects exactly the slots lost with keys in them |
| `ClusterState.Cluster.UpdateSlotsConfigWith` | installs/redis-3.2.6/src/cluster.c:1442-1528 | The whole handler takes the view to the specified one; the keys of every slot lost are deleted unless the node is to replicate the claimant; migrating slots are closed exactly when a master becomes a slave |
| `ClusterState.Cluster.SetMaster` | installs/redis-3.2.6/src/cluster.c:3638-3657 | Becomes a slave of n and, if it was a master, closes all open slots; or stops where the assertions fail |
| `ClusterState.Cluster.ReplaceYourMaster` | installs/redis-3.2.6/src/cluster.c:2666-2698 | A slave with a known master takes exactly its slots: slot by slot the old master's are its own now and every other stays; the master's counter ends 0, this node's grows by exactly that much, every other bitmap and counter stays.  Else nothing changes |
| `ClusterState.Cluster.GetMaxEpoch` | installs/redis-3.2.6/src/cluster.c:926-939 | The greatest of currentEpoch and all recorded configEpochs |
| `ClusterState.Cluster.BumpConfigEpoch` | installs/redis-3.2.6/src/cluster.c:970-987 | Takes the specified new epoch, or none |
| `ClusterState.Cluster.HandleConfigEpochCollision` | installs/redis-3.2.6/src/cluster.c:1035-1050 | Moves exactly when the specification does |
| `ClusterState.Cluster.SendFailoverAuthIfNeeded` | installs/redis-3.2.6/src/cluster.c:2466-2566 | Grants and records the vote exactly when the specification grants it (see VoteExactly); never to a master, to a node without known master, for a master neither failed nor failed over by hand or voted for within twice the timeout, nor when some node's bitmap holds a claimed slot under a greater configEpoch |
| `ClusterState.Cluster.DelNode` | installs/redis-3.2.6/src/cluster.c:863-890 | Forgets a node, its slots and exactly what was imported from it or migrating to it; the table stays consistent |
| `ClusterState.Cluster.SetSlotNode` | installs/redis-3.2.6/src/cluster.c:4024-4065 | SETSLOT NODE gives exactly that slot to n, on a master, unless the slot is its own, goes to another node and still holds keys; the slot is closed where it was importing, or migrating without keys; the table stays consistent |
| `ClusterState.Cluster.HandleSlaveFailover` | installs/redis-3.2.6/src/cluster.c:2704-2869 | Takes the specified branch and reaches the specified state; only a win, of a slave, changes nodes or slots, and it takes exactly the master's slots |
| `ClusterState.Cluster.MarkNode` | installs/redis-3.2.6/src/cluster.c:1151-1170 | A node is marked failed or not failed, and nothing else changes |
| `ClusterState.Cluster.SetManual` | installs/redis-3.2.6/src/cluster.c:4300-4317 | The state of a manual failover, and nothing else |
| `ClusterState.Cluster.CountMasters` | installs/redis-3.2.6/src/cluster.c:3510-3526 | The loop counts exactly the masters that serve slots |
| `ClusterState.Cluster.Absorb` | installs/redis-3.2.6/src/cluster.c:1600-1612 | Records the epochs of a known sender, never lowering one; every other record, and all else about the sender, stays |
| `ClusterState.Cluster.CountAck` | installs/redis-3.2.6/src/cluster.c:1928-1941 | Counts an ACK exactly when it comes from a known master with slots and its epoch is not below that of the election |
| `ClusterState.Cluster.ImportSlot` | installs/redis-3.2.6/src/cluster.c:4002-4013 | Opens an import of a slot that is not its own, from a known node |
| `ClusterState.Cluster.MigrateSlot` | installs/redis-3.2.6/src/cluster.c:3991-4001 | Opens a migration exactly of its own slots, to a known node |
| `ClusterState.Cluster.SetSlotStable` | installs/redis-3.2.6/src/cluster.c:4014-4017 | Closes import and migration of one slot |
| `ClusterState.Cluster.PromoteNode` | installs/redis-3.2.6/src/cluster.c:1415-1429 | The node becomes a master with no master of its own |
| `ClusterState.Cluster.DemoteNode` | installs/redis-3.2.6/src/cluster.c:1775-1784 | A master that turns slave loses exactly its slots |
| `ClusterState.Cluster.FollowRole` | installs/redis-3.2.6/src/cluster.c:1764-1799 | The sender has the role and the master its header announces; the table stays consistent |
| `ClusterPackets.IsDirty` | installs/redis-3.2.6/src/cluster.c:1811-1820 | Comparing bitmaps tells whether sender or its master owns other slots here than it claims |
| `ClusterPackets.FindStale` | installs/redis-3.2.6/src/cluster.c:1841-1866 | Finds the first claimed slot known under a later epoch, none exactly when there is none |
| `ClusterPackets.ReceiveClaim` | installs/redis-3.2.6/src/cluster.c:1600-1826 | Epochs, role and claimed slots in that order, as specified |
| `ClusterPackets.ReceivePing` | installs/redis-3.2.6/src/cluster.c:1541-1880 | A whole PING or PONG takes the tables to the specified state, closes migrations exactly when this node is demoted, and the UPDATE sent back is the specified one |
| `ClusterPackets.ReceiveUpdate` | installs/redis-3.2.6/src/cluster.c:1953-1974 | A whole UPDATE takes the tables to the specified state and closes migrations exactly when this node is demoted |
| `ClusterPackets.HeardVotes` | installs/redis-3.2.6/src/cluster.c:1600-1612 | What a header announces about its sender changes neither whether it may ask nor whether a claimed slot has a newer owner |
| `ClusterPackets.ReceiveRequest` | installs/redis-3.2.6/src/cluster.c:1925-1927 | A request for a vote is granted exactly when the specification grants it; judged by the records before the packet, only to a slave of a known master that failed or is failed over by hand, with no vote for it within twice the timeout, and never with a newer owner of a claimed slot |
| `ClusterRuns.Perform` | installs/redis-3.2.6/src/cluster.c:844-4065 | Each of eighteen packets, commands and ticks takes owner, importing and migrating tables from any consistent state to the specified one |
| `ClusterRuns.Run` | installs/redis-3.2.6/src/cluster.c:398-434 | After any sequence of them from initialisation, every bitmap and counter agrees with the owner table, the counters add up, and the node is where the specification says |
| `ClusterScenarios.OtherTakesOver` | installs/redis-3.2.6/src/cluster.c:1442-1515 | Such a run: a node serves a slot and migrates it, hears another claim it, becomes its slave, and nothing is migrating any more |
| `ClusterScenarios.FailoverTakesBack` | installs/redis-3.2.6/src/cluster.c:2704-2869 | It goes on: a manual failover is scheduled, held and won, and the node serves the slot again under the new epoch, whatever failover_auth_sent was at the start |
| `ClusterScenarios.VoteIsGranted` | installs/redis-3.2.6/src/cluster.c:2466-2566 | A run in which a slave announces itself, its master fails, and this node votes for it at the epoch it asks in |
| `ClusterScenarios.ImportIsClosed` | installs/redis-3.2.6/src/cluster.c:4024-4065 | A run in which an import is opened and closed by SETSLOT NODE, with a new epoch |
| `AofCommand.CatAppendOnlyGenericCommand` | installs/redis-3.2.6/src/aof.c:449-472 | Appends exactly the encoding of the command |
| `AofParent.AppendOnly.RewriteBufferAppend` | installs/redis-3.2.6/src/aof.c:124-160 | The blocks together gain exactly the bytes given, and no block overruns |
| `AofParent.AppendOnly.ChildWriteDiffData` | installs/redis-3.2.6/src/aof.c:95-121 | With any partial writes, what is sent comes off the front and the rest stays; nothing is sent after the stop flag |
| `AofParent.AppendOnly.RewriteBufferWrite` | installs/redis-3.2.6/src/aof.c:173-193 | On success exactly the whole buffer was written |
| `AofParent.AppendOnly.FeedAppendOnlyFile` | installs/redis-3.2.6/src/aof.c:511-559 | Log buffer and rewrite buffer gain the same bytes, with a SELECT first when the database changed |
| `AofParent.SelectTextEncodes` | installs/redis-3.2.6/src/aof.c:521-523 | The SELECT text printed by hand is the encoding of that command |
| `AofParent.AppendOnly.FlushAppendOnlyFile` | installs/redis-3.2.6/src/aof.c:287-425 | Every path of the flush, with full, short and failed writes and working or failing ftruncate; unless it exits, aof_current_size stays the file length |
| `AofParent.FlushConserves` | installs/redis-3.2.6/src/aof.c:287-425 | Unless the server exits, file followed by buffer is unchanged; even then the file is a prefix of them |
| `AofParent.ExitsExactly` | installs/redis-3.2.6/src/aof.c:363-401 | A flush exits the server exactly when, under the always policy, not all of the buffer was written |
| `AofParent.GoodWhenEmpty` | installs/redis-3.2.6/src/aof.c:385-416 | After an attempt the last write counts as good exactly when nothing is left in the buffer, which is exactly when all of it was written |
| `AofParent.FileGrows` | installs/redis-3.2.6/src/aof.c:330-401 | A flush leaves the file or appends to it what was written; a short write stays only when it cannot be truncated away |
| `AofParent.FieldIsFirst` | installs/redis-3.2.6/src/aof.c:297-342 | Over any run of flushes, aof_flush_postponed_start is the time of the first postponement since the last attempt to write, or zero |
| `AofParent.PostponedBriefly` | installs/redis-3.2.6/src/aof.c:297-317 | In any run a flush with something to write is put off exactly when it is under everysec, not forced, an fsync runs, and less than two seconds have gone by since the first postponement after the last attempt; else it is attempted |
| `AofParent.AppendOnly.ChildPipeReadable` | installs/redis-3.2.6/src/aof.c:1180-1201 | Stops sending and answers exactly when it read one !, and changes nothing else |
| `AofParent.AppendOnly.RewriteBackground` | installs/redis-3.2.6/src/aof.c:1263-1312 | Forks exactly when no child of either kind runs and pipes and fork work, and then forgets the selected database, so that the next feed starts with SELECT |
| `AofParent.AppendOnly.RewriteDone` | installs/redis-3.2.6/src/aof.c:1358-1467 | Switches files exactly when every step worked, else only forgets the child |
| `AofMachine.StepInv` | installs/redis-3.2.6/src/aof.c:511-559 | Every event keeps: file plus buffer is the log, snapshot plus pipe plus rewrite buffer is what a switch would install, and both replay to the dataset in memory |
| `AofMachine.RunInv` | installs/redis-3.2.6/src/aof.c:996-1006 | The same after every interleaving of feeds, flushes, partial pipe writes, reads, handshake, failing forks, deaths and switches |
| `AofMachine.SwitchBytes` | installs/redis-3.2.6/src/aof.c:1425-1460 | The installed file is the child's snapshot followed by everything fed since the fork |
| `AofMachine.SwitchReplays` | installs/redis-3.2.6/src/aof.c:1425-1460 | Replaying it gives the dataset in memory, so dropping aof_buf at the switch loses nothing |
| `AofMachine.RewriteIsComplete` | installs/redis-3.2.6/src/aof.c:1015-1175 | A successful rewrite loses, repeats and reorders nothing, and the first thing fed since the fork is a SELECT |
| `AofMachine.CrashRecovers` | installs/redis-3.2.6/src/aof.c:613-765 | At any moment of any run, even after an exit on a write error, a server that knows the logged commands loads from the file on disk exactly those that are complete on it; the whole log rebuilds the dataset |
| `AofLoader.LoadArguments` | installs/redis-3.2.6/src/aof.c:668-689 | Reads the arguments of one command, or says why it stops |
| `AofLoader.LoadAppendOnlyFile` | installs/redis-3.2.6/src/aof.c:613-765 | The loader does what its specification says on every file, with unknown commands and an open MULTI; what that is for logs, cut logs and malformed files is in LoadInvertsWrite, TruncatedLoad and MalformedExits |
| `AofLoader.CommandReads` | installs/redis-3.2.6/src/aof.c:653-689 | The loader reads back exactly the command that was written |
| `AofLoader.CommandIsCut` | installs/redis-3.2.6/src/aof.c:653-689 | Any proper non-empty prefix of a written command reads as cut short, never as another command or a format error |
| `AofLoader.TruncatedLoad` | installs/redis-3.2.6/src/aof.c:691-759 | For every byte prefix of a log of whole commands: the server exits at the first complete command it does not know; else with aof-load-truncated on exactly the complete commands run, even those of an open MULTI, and the file is cut at their end; with it off only a cut between commands outside a MULTI loads |
| `AofMalformed.MalformedExits` | installs/redis-3.2.6/src/aof.c:659-674 | After any whole known commands, a tail that does not begin with *, whose count is below one, or one of whose arguments does not begin with $, makes the server exit as bad format, with aof-load-truncated on or off; the commands before have run |
| `AofMalformed.StrayByteExits` | installs/redis-3.2.6/src/aof.c:659 | One command and a stray byte: nothing is cut off even with aof-load-truncated on |
| `AofMalformed.FailureExits` | installs/redis-3.2.6/src/aof.c:691-765 | Anything but the end, a command or a command cut short makes the server exit, with either setting |
| `AofMalformed.NegativeLengthExits` | installs/redis-3.2.6/src/aof.c:675-676 | An argument with a negative length exits too |
| `AofMalformed.OpenMultiExactly` | installs/redis-3.2.6/src/aof.c:712-714 | The loader takes a transaction for open exactly when some MULTI has had no EXEC or DISCARD after it |
| `AofLoader.LoadInvertsWrite` | installs/redis-3.2.6/src/aof.c:639-723 | On an untruncated log of known commands with every MULTI closed the loader inverts the writer |
| `RespTree.JunkFails` | installs/hiredis/read.c:371-401 | After any replies that come back, a byte that starts no reply is an error: the replies are kept, the rest is not read |
| `RespParser.Seek` | installs/hiredis/read.c:120-144 | The first CR LF, or -1 exactly when there is none |
| `RespParser.StepExtends` | installs/hiredis/read.c:215-365 | A step that does not wait takes the same bytes and does the same however much input follows |
| `RespParser.DrainSplits` | installs/hiredis/read.c:477-525 | Draining after a first piece and again after a second is draining after both |
| `RespParser.ChunkIndependence` | installs/hiredis/read.c:445-525 | For every byte stream, valid or not, and every way of cutting it, the replies, the error and what is left over are those of the whole stream |
| `RespParser.StepOk` | installs/hiredis/read.c:190-213 | Every step keeps the stack shape: at most nine tasks, all but the top arrays, child indices in range |
| `RespParser.DrainOk` | installs/hiredis/read.c:367-414 | So does any input |
| `RespReader.SeekNewline` | installs/hiredis/read.c:120-144 | The two nested loops find the first CR LF |
| `RespReader.ReadLongLong` | installs/hiredis/read.c:148-173 | Reads the sign and digits, -1 for anything else |
| `RespReader.Reader.Feed` | installs/hiredis/read.c:445-475 | Appends the chunk unless an error was met |
| `RespReader.Reader.StoreAndMove` | installs/hiredis/read.c:190-213 | Storing an item and moving on completes every array it ends |
| `RespReader.Reader.ProcessLine` | installs/hiredis/read.c:215-247 | One status, error or integer item, as specified |
| `RespReader.Reader.ProcessBulk` | installs/hiredis/read.c:249-300 | One bulk item, as specified |
| `RespReader.Reader.ProcessArray` | installs/hiredis/read.c:302-365 | One array header, as specified |
| `RespReader.Reader.ProcessItem` | installs/hiredis/read.c:367-414 | Does not change what draining would yield, and stops only to wait for input or on an error |
| `RespReader.Reader.GetReply` | installs/hiredis/read.c:477-525 | The next reply, none yet, or the error, exactly as draining the input would give them |
| `RespReader.TakeReplies` | installs/hiredis/async.c:417-484 | Taking replies until there is none yields exactly what the input holds |
| `RespReader.ReadAll` | installs/hiredis/read.c:445-525 | A whole session of feeds in any pieces yields what the uncut stream gives |
| `RespFormat.RoundTrip` | installs/hiredis/read.c:302-365 | Parsing the encoding of a reply tree returns the tree and goes on with what follows exactly when it has at most eight array levels; with more it fails with the nesting error |
| `RespFormat.LineRoundTrip` | installs/hiredis/read.c:215-247 | A status or error comes back as it was if and only if it holds no CR LF |
| `RespTree.TreeRoundTrip` | installs/hiredis/read.c:302-365 | Of all trees with true counts and 64-bit numbers, the first reply parsed is the tree if and only if it has at most eight array levels, no line in it holds CR LF and every array in it has fewer than 2^31 elements |
| `RespTree.Spoiled` | installs/hiredis/read.c:190-213 | Once something else is stored than stands at its place in a tree, that tree is never the next reply, whatever bytes follow |
| `RespTree.CountUsableExactly` | installs/hiredis/read.c:320-333 | An array whose elements come back comes back itself if and only if its count is below 2^31 |
| `RespTree.CountIsCut` | installs/hiredis/read.c:320-333 | With any count the array is closed after as many elements as its low 32 bits say, if positive, and the rest are replies of their own |
| `RespTree.FourGigaAndOne` | installs/hiredis/read.c:320-333 | An array announced with 2^32 + 1 elements comes back with one |
| `RespFormat.CountMustFit` | installs/hiredis/read.c:320-333 | An announced count whose low 32 bits are not positive makes storing the first element fail, whatever it is; with any other the first one is stored, or fails for its own nesting |
| `RespFormat.TwoGigaElements` | installs/hiredis/read.c:320-333 | An array announced with 2^31 elements fails at its first element |
| `RespFormat.NineLevelsFail` | installs/hiredis/read.c:302-315 | Nine one-element arrays inside each other fail with the nesting error |
| `RespFormat.LineEndIsLost` | installs/hiredis/read.c:215-247 | A status that is CR LF comes back as an empty one |
| `RespFormat.CommandRoundTrip` | installs/hiredis/hiredis.c:477-566 | For every argv, the formatted command is parsed back to the array of exactly those strings |
| `RespFormat.CountDigits` | installs/hiredis/hiredis.c:193-203 | The number of decimal digits |
| `RespFormat.BulkLen` | installs/hiredis/hiredis.c:206-208 | The bytes one argument takes on the wire |
| `RespFormat.TotalLength` | installs/hiredis/hiredis.c:492-497 | The length computed in advance is the length of the encoding |
| `RespFormat.RedisFormatCommandArgv` | installs/hiredis/hiredis.c:527-566 | Every write stays inside the totlen + 1 bytes allocated, together they are the command and a NUL, and the final assertion holds |
| `RespFormat.RedisFormatSdsCommandArgv` | installs/hiredis/hiredis.c:477-516 | The same for the sds form; the length is returned as an int |
| `DictBits.MaskIsModulo` | installs/hiredis/dict.c:118 | Masking a hash with size - 1 is taking it modulo the size, for every power of two |
| `DictBits.NextPower` | installs/hiredis/dict.c:306-315 | The least power of two that is at least 4 and at least the size asked for |
| `Dict.Dict.constructor` | installs/hiredis/dict.c:65-85 | An empty table stands for the empty map |
| `Dict.Dict.Find` | installs/hiredis/dict.c:243-256 | Finds the entry with the key and its value, or none exactly when the map lacks it |
| `Dict.Dict.Expand` | installs/hiredis/dict.c:88-132 | Refuses a size below the count; else every entry and the count are kept, each in its new bucket, and the left-over count reaches zero |
| `Dict.Dict.MoveAll` | installs/hiredis/dict.c:102-126 | The relinking loops move every entry exactly once |
| `Dict.Dict.ExpandIfNeeded` | installs/hiredis/dict.c:295-303 | Afterwards there is a free slot; the map is unchanged; a table with a free slot is left alone, an empty one gets four buckets, a full one twice as many |
| `Dict.Dict.KeyIndex` | installs/hiredis/dict.c:320-337 | -1 exactly when the key is present, else its bucket |
| `Dict.Dict.Add` | installs/hiredis/dict.c:135-154 | Adds the key exactly when it is new |
| `Dict.Dict.Replace` | installs/hiredis/dict.c:160-179 | The key has the value afterwards; tells whether it was new |
| `Dict.Dict.Delete` | installs/hiredis/dict.c:182-210 | Forgets exactly this key; its entry leaves its chain and the chains are otherwise unchanged |
| `DictIterator.Iterator.Next` | installs/hiredis/dict.c:268-286 | Returns the entries one after the other, none exactly at the end |
| `DictIterator.Iterator.DeleteReturned` | installs/hiredis/dict.c:278-283 | Deleting the entry just returned does not change what is still to come |
| `DictIterator.FlatIsContents` | installs/hiredis/dict.c:268-286 | A whole walk meets every key of the map exactly once |
| `DictIterator.Sweep` | installs/hiredis/dict.c:258-286 | A walk that deletes any of the entries it is given sees every key once and leaves exactly the others |
| `AsyncContext.CallbackList.Push` | installs/hiredis/async.c:227-247 | Appends to the linked queue |
| `AsyncContext.CallbackList.Shift` | installs/hiredis/async.c:249-263 | Takes the first of the linked queue, none exactly when empty |
| `AsyncContext.Context.Command` | installs/hiredis/async.c:583-648 | Accepts an ordinary command exactly when neither disconnecting nor freeing, and queues its callback last |
| `AsyncContext.Context.RunCallback` | installs/hiredis/async.c:265-272 | Makes the calls of the callback one after the other, each as specified |
| `AsyncContext.Context.Free` | installs/hiredis/async.c:323-328 | Tears down at once, or only sets the flag when called from a callback |
| `AsyncContext.Context.Disconnect` | installs/hiredis/async.c:357-362 | Tears down at once when nothing is pending and no callback runs, else only sets the flag |
| `AsyncContext.Context.AsyncFree` | installs/hiredis/async.c:275-317 | The callbacks left get NULL in issue order, and no command is accepted meanwhile |
| `AsyncContext.Context.AsyncDisconnect` | installs/hiredis/async.c:331-349 | The assertion that a clean disconnect has nothing pending holds at every call |
| `AsyncContext.Context.ProcessReply` | installs/hiredis/async.c:436-484 | The reply goes to the oldest pending callback; without one, an error reply disconnects and any other stops the process |
| `AsyncContext.Context.ProcessCallbacks` | installs/hiredis/async.c:411-489 | The loop over the replies does what the machine does, up to teardown |
| `AsyncContext.Context.HandleRead` | installs/hiredis/async.c:516-535 | A failed read tears down, any other delivers what arrived |
| `AsyncContext.Context.HandleWrite` | installs/hiredis/async.c:537-561 | A failed write tears down, any other only shortens the output buffer |
| `AsyncContext.Context.Run` | installs/hiredis/async.c:411-489 | In any run of commands, disconnects, frees, reads, writes and failures the object ends in exactly the state of the machine after these events, so every law below holds of it |
| `AsyncMachine.ServedInOrder` | installs/hiredis/async.c:411-489 | In any run the k-th accepted command's callback is handed the k-th reply that arrived, or NULL at teardown; while up exactly the replies that arrived have been handed out; after teardown every accepted command has been served |
| `AsyncMachine.AcceptedExactly` | installs/hiredis/async.c:593 | A command the user issues is accepted if and only if no disconnect was asked for before, by the user or by a callback that has run; it goes last and stays; no other event but a read accepts anything |
| `AsyncMachine.CallbackAccepts` | installs/hiredis/async.c:583-648 | Of the calls of one callback exactly the commands before its first disconnect or free are accepted, in order, and none when the context is closing already |
| `AsyncMachine.AcceptedByCallbacks` | installs/hiredis/async.c:411-489 | What a read accepts, at any point of any run: exactly the commands issued by the callbacks of its replies up to the first request to close by anybody, and nothing from the callbacks that a teardown runs |
| `AsyncMachine.NothingAcceptedLater` | installs/hiredis/async.c:593 | Once disconnecting, nothing is accepted any more, not even from a callback |
| `AsyncMachine.RunKeeps` | installs/hiredis/async.c:411-489 | After any run from any live state: order kept, the replies that arrived matched in order and all of them while up, and disconnecting exactly when asked |
| `AsyncMachine.TeardownKeeps` | installs/hiredis/async.c:275-317 | Teardown serves everything accepted and accepts nothing |
| `AsyncMachine.ReplyEndsExactly` | installs/hiredis/async.c:436-475 | A reply ends the context if and only if nobody waits for one or its callback asks to free; it stops the process if and only if nobody waits and it is no error |
| `AsyncMachine.EventEndsExactly` | installs/hiredis/async.c:516-561 | Any other event ends it if and only if it is a failure, a free, or a disconnect with nothing left to wait for |
| `AsyncMachine.WrittenIsGone` | installs/hiredis/async.c:536-561 | A command adds its bytes to the buffer and its callback to the queue; writing them, in one part or two, takes them out again |
| `AsyncMachine.CalledOnceInOrder` | installs/hiredis/async.c:265-272 | Exactly the callbacks that have a function are called, each once, in issue order |
| `SdsQuote.SdsCatRepr` | installs/hiredis/sds.c:740-763 | Appends the quoted form |
| `SdsQuote.ReadToken` | installs/hiredis/sds.c:826-903 | The token loop with its two quote flags reads what the scanner specifies, for which see WordExactly |
| `SdsQuote.SdsSplitArgs` | installs/hiredis/sds.c:815-923 | The arguments, or none when quotes are unbalanced; which lines give which arguments is in MixedRoundTrip, WordExactly and JunkBehindQuote |
| `SdsQuote.EscapedByteScans` | installs/hiredis/sds.c:833-866 | Every escaped byte, of all 256, is read back as itself |
| `SdsWords.MixedRoundTrip` | installs/hiredis/sds.c:815-923 | For every list of words, each bare, in double quotes or between apostrophes, with a space between them, splitting returns exactly those words |
| `SdsWords.WordExactly` | installs/hiredis/sds.c:867-903 | A word alone on a line comes back if and only if it can be written in that form: in double quotes always, between apostrophes unless it holds a NUL or ends in a backslash, bare if it is not empty and holds no blank, quote or NUL |
| `SdsWords.TickLost` | installs/hiredis/sds.c:867-882 | A word that cannot stand between apostrophes makes the line invalid |
| `SdsWords.BackslashIsLost` | installs/hiredis/sds.c:868-871 | A single backslash between apostrophes is one |
| `SdsWords.JunkBehindQuote` | installs/hiredis/sds.c:856-860 | A quoted word with anything but a blank behind it makes the line invalid |
| `SdsWords.Budget` | installs/hiredis/sds.c:826-903 | A token is no longer than its text, and as long only when every byte stands for itself |
| `SdsWords.ReprPrints` | installs/hiredis/sds.c:740-763 | The quoted form of any string is printable |
| `SdsWords.PrintableStands` | installs/hiredis/sds.c:740-763 | Printable text without quotes and backslashes is put between quotes as it is |
| `SdsQuote.QuoteRoundTrip` | installs/hiredis/sds.c:740-763 | For every list of byte strings, splitting the space-joined quoted strings returns the list |
| `Bitfield.StoredBits` | installs/redis-3.2.6/src/bitops.c:202-215 | The field holds the value's bits and no other bit of the string changes |
| `Bitfield.GetAfterSet` | installs/redis-3.2.6/src/bitops.c:222-234 | Get after set returns the value modulo 2^bits |
| `Bitfield.OtherFieldsKept` | installs/redis-3.2.6/src/bitops.c:202-215 | A field that does not overlap keeps its number |
| `Bitfield.SetUnsignedBitfield` | installs/redis-3.2.6/src/bitops.c:202-215 | The loop writes the field |
| `Bitfield.GetUnsignedBitfield` | installs/redis-3.2.6/src/bitops.c:222-234 | The loop reads the field |
| `BitfieldOps.GetSignedBitfield` | installs/redis-3.2.6/src/bitops.c:236-256 | The two's complement reading of the field |
| `BitfieldOps.SignedReads` | installs/redis-3.2.6/src/bitops.c:236-256 | A signed number that fits is read back, negative ones too |
| `BitfieldOps.CheckUnsigned` | installs/redis-3.2.6/src/bitops.c:281-316 | Nonzero exactly when the true sum does not fit; the limit is the wrapped or clamped sum |
| `BitfieldOps.CheckSigned` | installs/redis-3.2.6/src/bitops.c:318-368 | The same for signed fields and all 64-bit values, but that saturation gives the maximum for a value whose distance to it leaves 64 bits |
| `BitfieldOps.WriteReads` | installs/redis-3.2.6/src/bitops.c:997-1072 | After SET or INCRBY the field holds exactly the number wanted: the sum if it fits, else its wrap or clamp; on FAIL the string is unchanged |
| `BitfieldOps.SetClampsExactly` | installs/redis-3.2.6/src/bitops.c:1025-1060 | SET stores its value wrapped or clamped to the field if and only if it does not saturate, or the value is not negative (unsigned), or not so low that its distance to the maximum leaves 64 bits (signed) |
| `BitfieldOps.SaturatedMinusOne` | installs/redis-3.2.6/src/bitops.c:1055-1060 | SET u8 of -1 under saturation leaves 255 |
| `BitfieldOps.SaturatedLowest` | installs/redis-3.2.6/src/bitops.c:325-337 | SET i8 of -2^63 under saturation leaves 127 |
| `BitfieldOps.ReadPadded` | installs/redis-3.2.6/src/bitops.c:1072-1105 | GET on the nine byte zero-padded copy reads the field of the string |
| `BitfieldOps.Exec` | installs/redis-3.2.6/src/bitops.c:1000-1071 | One operation gives the specified reply and string; what that reply is, against a GET before or after, is in BitfieldReplies |
| `BitfieldOps.BitfieldCommand` | installs/redis-3.2.6/src/bitops.c:997-1106 | The loop runs the operations one after the other on the string the ones before left |
| `BitfieldReplies.GetLeaves` | installs/redis-3.2.6/src/bitops.c:1072-1105 | GET answers the number in the field and changes nothing |
| `BitfieldReplies.SetAnswersTheOld` | installs/redis-3.2.6/src/bitops.c:1025-1060 | Run after a GET of the same field, a SET that is made gives the same answer: the number before |
| `BitfieldReplies.IncrementAnswersTheNew` | installs/redis-3.2.6/src/bitops.c:1011-1060 | Run before a GET of the same field, an INCRBY that is made gives the same answer: the number after |
| `BitfieldReplies.NoAnswerExactly` | installs/redis-3.2.6/src/bitops.c:1032-1070 | There is no answer exactly when a SET or INCRBY under FAIL asks for a number out of range, and then the string is unchanged |
| `BitfieldReplies.InRangeIsStored` | installs/redis-3.2.6/src/bitops.c:1011-1060 | A number in range is stored as asked, whatever the overflow mode |
| `BitfieldReplies.FiveThenNine` | installs/redis-3.2.6/src/bitops.c:1041-1060 | On a field of eight bits holding 5, SET 9 answers 5 and INCRBY 1 answers 6 |
| `BitfieldReplies.FieldSplits` | installs/redis-3.2.6/src/bitops.c:222-234 | A field is its first bits followed by the others, highest first |
| `BitfieldReplies.BytesReadBigEndian` | installs/redis-3.2.6/src/bitops.c:222-234 | A field of whole bytes is their big-endian number |
| `Popcount.TableCounts` | installs/redis-3.2.6/src/bitops.c:44 | Every entry of the table is the number of bits set in its index |
| `Popcount.WordCounts` | installs/redis-3.2.6/src/bitops.c:66-86 | The bit tricks turn a word into the counts of its four bytes side by side |
| `Popcount.Gathers` | installs/redis-3.2.6/src/bitops.c:80-86 | With lanes of at most 56 the multiplication gathers their sum in the top byte without overflow |
| `Popcount.CountBlock` | installs/redis-3.2.6/src/bitops.c:54-87 | 28 bytes are counted right |
| `Popcount.RedisPopcount` | installs/redis-3.2.6/src/bitops.c:40-92 | For every string and alignment, the count is the number of bits set, bit by bit |
| `Bitpos.RedisBitpos` | installs/redis-3.2.6/src/bitops.c:101-179 | For every string and alignment, the first bit of the kind looked for, zero-padded on the right, or -1 exactly when no bit is set |
| `Bitpos.ScanWord` | installs/redis-3.2.6/src/bitops.c:161-178 | The scan of the last word finds the bit, so the panic is not reached |
| `Bitop.BytesOp` | installs/redis-3.2.6/src/bitops.c:668-706 | A word operation is the operation on each of its bytes |
| `Bitop.FastPath` | installs/redis-3.2.6/src/bitops.c:658-718 | The four-word path computes the byte fold as far as it goes |
| `Bitop.Compute` | installs/redis-3.2.6/src/bitops.c:616-734 | For all strings, missing keys included, every byte of the result is the fold of the zero-padded strings and its length is the longest |
| `Bitop.FoldBits` | installs/redis-3.2.6/src/bitops.c:722-731 | Bit by bit: set by AND if all strings have it, by OR if one has, by XOR if an odd number has, by NOT if its string has not |
| `Crc64.TableIsBitwise` | installs/redis-3.2.6/src/crc64.c:42-171 | Every table entry is what eight bit steps make of its index |
| `Crc64.ComputeCrc64` | installs/redis-3.2.6/src/crc64.c:173-181 | The table routine computes the bit by bit CRC |
| `Crc64.CrcChains` | installs/redis-3.2.6/src/crc64.c:173-181 | The CRC of a concatenation is the CRC of the second part continued from that of the first |
| `Crc64.StepInjective` | installs/redis-3.2.6/src/crc64.c:178 | A step is injective in the running CRC and in the byte |
| `Crc64.CrcInjective` | installs/redis-3.2.6/src/crc64.c:173-181 | The same bytes from different running CRCs end in different CRCs |
| `Crc64.BurstDetected` | installs/redis-3.2.6/src/crc64.c:173-181 | No change confined to eight consecutive bytes leaves the CRC the same |
| `DumpPayload.CreateDumpPayload` | installs/redis-3.2.6/src/cluster.c:4396-4423 | Appends version and checksum |
| `DumpPayload.VerifyDumpPayload` | installs/redis-3.2.6/src/cluster.c:4429-4446 | Accepts exactly the payloads of at least ten bytes, not too new, whose CRC over footer and all is zero |
| `DumpPayload.ZeroResidue` | installs/redis-3.2.6/src/cluster.c:4442-4445 | Comparing the stored checksum is asking whether the CRC of the whole is zero |
| `DumpPayload.BuiltIsAccepted` | installs/redis-3.2.6/src/cluster.c:4396-4446 | Every payload built is accepted |
| `DumpPayload.ChangeIsRejected` | installs/redis-3.2.6/src/cluster.c:4429-4446 | A payload that differs from an accepted one only within eight consecutive bytes, wherever they are, is rejected |
| `DumpPayload.ByteChangeIsRejected` | installs/redis-3.2.6/src/cluster.c:4429-4446 | In particular one changed byte |
| `AdList.List.AddNodeHead` | installs/redis-3.2.6/src/adlist.c:80-98 | Prepends; links in both directions stay consistent |
| `AdList.List.AddNodeTail` | installs/redis-3.2.6/src/adlist.c:106-124 | Appends |
| `AdList.List.InsertNode` | installs/redis-3.2.6/src/adlist.c:126-153 | Inserts before or after a node |
| `AdList.List.DelNode` | installs/redis-3.2.6/src/adlist.c:159-172 | Removes exactly that node |
| `AdList.List.Rotate` | installs/redis-3.2.6/src/adlist.c:322-335 | The last element becomes the first |
| `AdList.ListIter.Next` | installs/redis-3.2.6/src/adlist.c:221-232 | Returns the nodes in order, from either end |
| `AdList.ListIter.DeleteReturned` | installs/redis-3.2.6/src/adlist.c:207-219 | Deleting the element just returned leaves what is to come unchanged |
| `BioQueue.StepKeepsInv` | installs/redis-3.2.6/src/bio.c:126-206 | Every step of a producer, of a thread asking for the count and of the worker keeps the queue invariant |
| `BioQueue.JobsRunInOrder` | installs/redis-3.2.6/src/bio.c:140-197 | In every state of every interleaving the jobs that have run are the first ones created, each once, in order |
| `BioQueue.PendingIsLength` | installs/redis-3.2.6/src/bio.c:126-197 | bio_pending is the queue length whenever the lock is free |
| `BioQueue.ZeroMeansDone` | installs/redis-3.2.6/src/bio.c:200-206 | A reported 0 means every job queued before has run |
| `BioQueue.NoLostWakeup` | installs/redis-3.2.6/src/bio.c:133-138 | With the lock free and a job queued, the worker is not asleep |
| `BioQueue.NextJobRuns` | installs/redis-3.2.6/src/bio.c:166-196 | Left alone, the worker runs the next job in creation order within six steps |
| `BioQueue.BioJobs.Create` | installs/redis-3.2.6/src/bio.c:134-135 | List and counter grow together |
| `BioQueue.BioJobs.Finish` | installs/redis-3.2.6/src/bio.c:194-195 | The first job leaves list and counter together |
| `ClusterState.Cluster.Rebind` | installs/redis-3.2.6/src/cluster.c:1495-1496 | One slot changes hands; every other slot, bit and counter stays |
| `ClusterState.Cluster.CloseAllSlots` | installs/redis-3.2.6/src/cluster.c:3451-3456 | Nothing is importing or migrating any more |
| `ClusterState.Cluster.BecomeSlaveOf` | installs/redis-3.2.6/src/cluster.c:3642-3656 | The node replicates n and, if it was a master, has closed its open slots |
| `ClusterState.Cluster.MoveSlots` | installs/redis-3.2.6/src/cluster.c:2677-2682 | Exactly the slots of one node go to another |
| `ClusterState.Cluster.NewerOwner` | installs/redis-3.2.6/src/cluster.c:2541-2557 | Found exactly when some claimed slot is served under a greater configEpoch |
| `ClusterState.Cluster.CloseSlotsOf` | installs/redis-3.2.6/src/cluster.c:868-876 | Exactly the imports from n and the migrations to it end |
| `ClusterState.Cluster.ChooseFailoverStep` | installs/redis-3.2.6/src/cluster.c:2704-2850 | Chooses the specified branch of the failover; only a slave with a known master does anything |
| `ClusterState.Cluster.WinElection` | installs/redis-3.2.6/src/cluster.c:2856-2865 | Raises its configEpoch to the election epoch and takes over exactly the master's slots |
| `RespReader.Reader.ProcessType` | installs/hiredis/read.c:371-401 | The type byte, an unknown one failing for good |
| `RespReader.Reader.PushArray` | installs/hiredis/read.c:320-333 | A non-empty array becomes the parent of a task for its first element |
| `Dict.Dict.MoveChain` | installs/hiredis/dict.c:111-124 | One old chain is relinked into the new table; everything already there stays |
| `Dict.Dict.Insert` | installs/hiredis/dict.c:144-152 | A new entry goes in front of its bucket and into the map |
| `BitfieldOps.NextSigned` | installs/redis-3.2.6/src/bitops.c:1011-1030 | The number a signed SET or INCRBY stores, or none |
| `BitfieldOps.NextUnsigned` | installs/redis-3.2.6/src/bitops.c:1041-1060 | The number an unsigned SET or INCRBY stores, or none |
| `Bitpos.LoadWord` | installs/redis-3.2.6/src/bitops.c:144-152 | The next eight bytes as a number, highest first, zero-padded |
| `Bitop.Lengths` | installs/redis-3.2.6/src/bitops.c:616-647 | The greatest and least length, a missing key counting as empty |
| `Bitop.FoldByte` | installs/redis-3.2.6/src/bitops.c:722-731 | One byte of the fold |

## Left out

Cluster
- Node handshake, MEET, gossip sampling and failure detection: a node may be met, dropped or marked failed at any moment instead.
- Restarts and saving of the configuration; voters do not restart, and the vote at cluster.c:2562 is not saved by the source either.
- Epochs are unbounded numbers; the 64-bit wrap is not modelled.
- Slave lists, the MIGRATE_TO flag and CLUSTER RESET; the number of keys in a slot is a parameter.
- ClusterState.Cluster.DelNode: failure reports are not modelled, and the slots are passed over once per table, where the source does so in one loop.
- ClusterState.Cluster.BecomeSlaveOf: slave lists and the replication link are not modelled.
- In ClusterState node records are held by value in a map, so aliasing between them is not modelled.
- clusterInit leaves failover_auth_sent as the memory was (it is first assigned at cluster.c:2778); ClusterState starts with either value, and the elections over the network start with it clear.
- Random delays, ranks and data age of an election are a nondeterministic clock.
- ClusterElection.ElectionSafety: the agreed set of voting masters is a hypothesis about the winners, because the source does not enforce agreement on it.

Append only file
- AofParent.AppendOnly.FeedAppendOnlyFile: EXPIRE, SETEX and PSETEX are logged translated by the source; the model logs commands that need no translation.
- AofLoader.LoadArguments: a negative length is out of memory; from -18 to -1 the size sdsnewlen computes wraps instead, and what follows is undefined.
- AofParent.AppendOnly.RewriteDone: a rewrite while the log is disabled (aof_fd is -1) is not modelled.
- Switching the log off and on, fsync and what it makes durable, and read errors other than the end of the file.
- The bytes of the child's snapshot are any command sequence that rebuilds the dataset; the RDB and rewrite encodings are not modelled.
- A read by the child takes any number of bytes; its last read is taken to find the pipe empty afterwards.

RESP client
- RespReader.ReadLongLong: numbers whose digits denote 2^63 or more overflow in C, which is undefined; the model reads them as they are, and the round trips exclude them.
- RespReader.Reader.ProcessBulk: for lengths from 2^63 - 2 on the signed sum len+2 overflows in C, which is undefined; the model waits for that many bytes.
- Buffers above 2 GB and failing allocations.
- The reply tree is built by value, so the reader's pointers into it are not modelled.
- RespFormat.RedisFormatCommandArgv: requires the command to be shorter than 2^31 bytes, because its length is an int.
- The printf-like formatter, blocking calls, pub/sub and MONITOR, and the connect and disconnect hooks of the asynchronous client.
- AsyncContext.Context.ProcessReply: replies in the subscribed and monitoring modes are not modelled.
- AsyncContext.Context.Run: what callbacks do is an arbitrary sequence of calls per callback; calling the event handlers from inside a callback is not among them.

Data structures and arithmetic
- Dict.Dict.Expand: requires a size below LONG_MAX, from which on _dictNextPower gives no power of two; tables of 2^31 buckets and more, where the int index of the source overflows, are not modelled.
- Dict.Dict.ExpandIfNeeded, and with it KeyIndex, Add and Replace: requires that the table can still double below LONG_MAX.
- The hash function and key comparison are a parameter and equality; duplication and destruction of keys and values, and clearing the table, only add easy members.
- BioQueue: one job type; the types share nothing in the source.  Time stamps, what a job does and thread cancellation are not modelled.
- BitfieldOps.GetSignedBitfield, CheckSigned and all members on requests: signed fields of width 64 are not modelled, because the source shifts by 64 there, which is undefined.
- Signed overflow of the differences at bitops.c:325-326 and of the sum at 1019 wraps as two's complement, as the comment at 322-324 allows for; the C standard leaves it undefined.
- Parsing of BITFIELD and BITOP arguments, growing of strings (a write is required to lie inside), and keys of the wrong type.
- Pointer alignment is the address modulo the word size; loads are little-endian.
- The object bytes in a DUMP payload are arbitrary.
- Buffer growth in sds.c and the other string routines only add easy members.
