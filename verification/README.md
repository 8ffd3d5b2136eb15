# UfsRedis: a verified model

UfsRedis is Redis 4.0.8 with a replicated union-find value. This project models the parts of it that are hard to get
right and proves what they are for:

- **Union-find under concurrent edits** (`Ufs*.dfy`). Clients execute UNION and SPLIT at once; a server orders,
  transforms and forwards them. The main result is convergence: after any run whose splits name one element, any two
  clients with nothing in flight answer queries from the same equivalence relation. Below it are the transformation
  square with its exact condition, the two-dimensional state spaces both sides keep, the walk that finds an operation's
  context, the clique graph that the operations change and queries read, and the text printed from it.
- **Cluster elections, epochs and slots** (`Cluster*.dfy`, `Election*.dfy`, `SlotConvergence.dfy`). A network of nodes
  whose packets may be lost and reordered: at most one winner per epoch, epoch dominance, the bound on epoch-collision
  moves, convergence of slot claims, and the slot table kept twice.
- **Append-only file** (`Aof*.dfy`). The log's text and its loader, logs cut by a crash or damaged, the write buffer,
  the rewrite with its pipe and stop exchange, switching the log on and off, expires made absolute. The main result is
  durability: in every reachable state the file on disk loads and rebuilds the dataset, values and deadlines, as it was
  after a prefix of the commands that clients gave.
- **Bit arithmetic** (`BitCount.dfy`, `BitString.dfy`, `Bitfield.dfy`), the **slot index** of the keys
  (`SlotIndex.dfy`), **CRC-64 and DUMP** (`CrcTable.dfy`, `Dump.dfy`) and the **linked list** (`AdList.dfy`).

Where the source changes things step by step the model does too: handlers are methods of classes with the source's
fields, loops stay loops, and each is proved against a function or relation about which the lemmas speak. Runs are
sequences of events; a predicate `Runs` says which state they lead to. `dafny verify dfyconfig.toml` checks everything.

Some promises do not hold of the code as it is. The code is kept, an input that breaks the promise is given, and the
exact condition under which it holds is proved:

- Acknowledgements of an abandoned election are counted between clearing the counter and drawing the next epoch
  (`ElectionWindow.TwoWinnersOfOneEpoch`, `ElectionSafety.CountIsHonestExactlyWhenFresh`).
- Splitting several names at once does not commute with every concurrent operation (`UfsDivergence.ClientsDiverge`,
  `UfsSets.SquareExactly`).
- Claims tied for the greatest epoch leave a slot to whoever is heard first
  (`SlotConvergence.ConvergesExactlyWithoutTies`).
- A transaction cut by a crash is executed in part, since the loader runs the commands after MULTI at once
  (`AofRecovery.TornTransaction`, `AofRecovery.TransactionsSurviveExactly`).
- A crash between the two commands that SETEX, PSETEX or SET with a time is logged as leaves the value without its
  deadline (`AofClients.DeadlineIsLost`, `AofClients.ClientsRecover`, `AofClients.TornExactly`).
- RESTORE with a time to live is logged with the relative time, so that its deadline moves with the time of loading
  (`AofExpire.RestoreDrifts`, `AofExpire.LoggedReplays`).
- The assertion that the log finds only one unit of time in a SET fails for options that SET accepts
  (`AofExpire.TrippingSet`, `AofExpire.TripsExactly`).
- A saturating SET of a very low value, or of a negative one into an unsigned field, stores the maximum
  (`Bitfield.SaturatesTheWrongWay`, `Bitfield.SetCheckExactly`, `Bitfield.Set`).
- A slave without a master that hears a claim for an unassigned slot reads the slot count of no node
  (the contract of `ClusterSlots.SlotTable.UpdateSlotsConfigWith`).
- A value with a single element of several letters is printed without its last letter
  (the contract of `UfsPrint.UpdateVerticeUfs`).

## Model

| member | source | states |
|---|---|---|
| `UfsProtocol.Convergence` | src/ufs.c:673-1008 | over every run of local operations, server steps and deliveries, two clients with empty channels have executed the same operations; and if every SPLIT a user gave names one element, both answer FIND and UMEMBERS from the same relation, that of their graphs |
| `UfsProtocol.GraphsDepict` | src/ufs.c:767-859 | over every such run each client's graph is a clique graph and shows the relation of the client's final text, unless the value is one element of several letters |
| `UfsSystem.StartIsInit` | src/ufs.c:1020-1114 | any number of replicas that built the same clique graph and printed it are a start of such runs |
| `UfsSystem.RunKeepsLinks` | src/ufs.c:673-1008 | every run, whatever the operations, keeps each client's channels in order with its two spaces, operations numbered and in order per client, and the same operations in all of the server's spaces |
| `UfsSystem.StepKeepsLinks` | src/ufs.c:673-1008 | each of the three kinds of step keeps that bookkeeping |
| `UfsProtocol.RunKeepsInv` | src/ufs.c:673-1008 | every run whose splits name one element keeps each client's pair of spaces in agreement, all of the server's spaces alike, and every graph depicting its client's final text |
| `UfsProtocol.StepKeepsInv` | src/ufs.c:673-1008 | each of the three kinds of step keeps that invariant, a local split provided it names one element |
| `UfsSystem.ServerFindsContext` | src/ufs.c:863-892 | the server always finds the state a client's operation was executed at, in the last row of its space, and from there on it knows exactly what that client had not seen |
| `UfsSystem.ClientFindsContext` | src/ufs.c:777-805 | so does a client for every operation the server forwards |
| `UfsProtocol.TakenAndForwarded` | src/ufs.c:918-957 | after the server took an operation into one space and forwarded its transformed form into another, both end in the same relation |
| `UfsProtocol.LocalTextLeads` | src/ufs.c:767-774 | what a client prints after an accepted operation of its user is a text the protocol can go on from |
| `UfsPair.LocateFinds` | src/ot.c:988-1024 | whichever edge it tries first, the walk ends exactly at the cell whose path carries the operations of the context |
| `UfsPair.FoundIsNamed` | src/ot.c:977-986 | although identifiers are searched as text, so that 1 is found in 12, one is found exactly when the context names it, because contexts hold all earlier operations of each client |
| `UfsPair.LocateIsSound` | src/ot.c:988-1024 | a state that the walk finds is one of the space, and the operations on its path are exactly those of the context |
| `UfsPair.LocateRVertice` | src/ot.c:988-1024 | the loop is that walk |
| `UfsPair.LocateLVertice` | src/ot.c:941-975 | without a context the walk ends at the final state and collects the identifiers of all operations |
| `UfsPair.ReceiverKnowsState` | src/ot.c:988-1040 | for the first message of a channel that walk ends in the receiver's last row, at the column the sender executed it at |
| `UfsPair.ExtendKeepsLinked` | src/ufs.c:679-774 | a local operation appends one message and keeps both channels consistent with the two spaces |
| `UfsPair.InsertKeepsLinked` | src/ufs.c:804-842 | receiving the head of a channel does too |
| `UfsPair.MessageFits` | src/ufs.c:804-842 | in agreeing spaces an operation in flight is acceptable at the state where it enters |
| `UfsPair.QuietPairAgrees` | src/ufs.c:673-1008 | a pair with nothing in flight holds the same operations, and the same relation if its spaces agree |
| `UfsPair.TransformedLeads` | src/ufs.c:825-859 | the operation that leaves the row leads from the old final state to the new one |
| `UfsSpace.TransformLoop` | src/ufs.c:820-842 | the loop that walks along a row with the entering operation builds the woven row, its operations and the operations across |
| `UfsSpace.WeaveIsSound` | src/ufs.c:820-842 | that closes every square it passes: new cells, new operations along and across all mean what is left of the old ones |
| `UfsSpace.OneSquare` | src/ot.c:506-939 | one round of it: both transformed operations are acceptable and end in the same relation |
| `UfsSpace.ExtendKeepsAgreement` | src/ufs.c:679-774 | extending one space of a pair keeps states and effects equal wherever both spaces have them |
| `UfsSpace.InsertKeepsAgreement` | src/ufs.c:804-842 | inserting the other side's operation builds, column by column, the states and effects the other side already has |
| `UfsTransform.TransformationSquare` | src/ot.c:506-939 | for any two acceptable operations whose splits name one element, both orders give well-formed texts of the same relation |
| `UfsSets.SquareExactly` | src/ot.c:506-939 | any two acceptable operations, splits of several names included: both orders give well-formed texts of the same relation if and only if the operations are compatible, a condition on the value and the two operations |
| `UfsTransform.TransformMeans` | src/ot.c:506-939 | the transformed operation is acceptable after the other one and means exactly what is left of the original's effect |
| `UfsTransform.EffectsSquare` | src/ot.c:506-939 | on relations: two joins or cuts in either order, each followed by what is left of the other, give the same relation if and only if they are not cuts of overlapping different sets |
| `UfsTransform.CpltFollows` | src/ot.c:290-369 | the complement found in the text names what remains of the class once an element is split off |
| `UfsPartition.UpdateMeans` | src/ufs.c:271-377 | editing the text in place gives a well-formed text whose relation is the operation applied to the old relation |
| `UfsPartition.UnionAbs` | src/ufs.c:278-322 | UNION on the text joins two classes of the relation, or changes nothing when they are one |
| `UfsPartition.SplitAbs` | src/ufs.c:323-370 | SPLIT on the text takes the named elements out of their class |
| `UfsPartition.SameTextIsSameSet` | src/ufs.c:333-335 | comparing text lengths decides whether the names to split off are the whole class |
| `UfsPartition.DelSet` | src/ot.c:4-44 | deleting names from a class's text removes exactly those elements |
| `UfsSets.UnionSplitSquareExactly` | src/ot.c:506-939 | for a split of any names against a union, both orders agree if and only if an argument is the nothing-to-do mark, or a redirected argument's class is split off whole, or the split takes along the unredirected first names of both arguments or of neither |
| `UfsSets.SplitSplitSquareExactly` | src/ot.c:506-939 | two splits of any names agree in both orders if and only if their sets are disjoint or equal |
| `UfsDivergence.ClientsDiverge` | src/ufs.c:673-1008 | a run from one value: two clients accept a union and a split of two names at once, all channels end empty with the same operations executed, and the graphs and the final texts show different relations |
| `UfsSets.SetSplitDiverges` | src/ot.c:506-939 | a value and two acceptable concurrent operations on which the orders disagree |
| `UfsGraph.ClassesPartition` | src/ufs.c:104-186 | in a clique graph whoever is in a vertex's class has the same class |
| `UfsGraph.LinkedCliques` | src/ufs.c:162-186 | linking two cliques completely leaves a clique graph with their union as a class and the others unchanged |
| `UfsGraph.CudGraph.CreateEdge` | src/ufs.c:141-160 | adds an edge in both directions unless it is there, and never a loop or a repetition |
| `UfsGraph.CudGraph.CreateLinks` | src/ufs.c:162-186 | the two nested loops join the classes of the two vertices and change no other class |
| `UfsGraph.CudGraph.RemoveAdjEdge` | src/ufs.c:222-269 | removes exactly the edges between a vertex and what is not in the list |
| `UfsGraph.CudGraph.SplitProc` | src/ufs.c:509-529 | exactly the edges between the listed vertices and the others disappear; vertices of one class become a class of their own |
| `UfsGraph.CudGraph.UnionProc` | src/ufs.c:441-507 | for single names and lists alike cliques stay cliques, and lists that each lie in one class make these classes one |
| `UfsGraph.CudGraph.LinkAll` | src/ufs.c:1046-1058 | linking the vertices of a new class pair by pair makes them one class and leaves the others alone |
| `UfsPrint.UpdateVerticeUfs` | src/ufs.c:379-439 | the printed text is well formed, and stands for the graph's relation if and only if the value is not a single element of several letters |
| `UfsPrint.UnionDepicts` | src/ufs.c:441-507 | what UNION does to the graph is what it does to the relation |
| `UfsPrint.SplitDepicts` | src/ufs.c:509-529 | what SPLIT does to the graph is what it does to the relation |
| `UfsValue.Value.constructor` | src/ufs.c:1020-1060 | from any well-formed text UINIT builds a clique graph that shows the text's relation |
| `UfsValue.Value.CheckArgv` | src/ufs.c:531-671 | accepts exactly names of different elements of one class, and next to the nothing-to-do mark a single name |
| `UfsValue.Value.Execute` | src/ufs.c:441-529 | leaves a clique graph of the same elements, and has the operation's effect on the relation shown if the operation was acceptable |
| `UfsValue.Value.ExecuteLocal` | src/ufs.c:679-774 | a user's operation is refused and changes nothing, or is executed and the new graph printed: the local step of the runs |
| `UfsValue.ConnectedIsOneClass` | src/ufs.c:132-139 | the pairwise edge test decides whether names are different elements of one class |
| `ElectionSafety.ElectionSafety` | src/cluster.c:2599-2699 | in every run in which views fit the electorate and no acknowledgement of an abandoned election is counted, two wins of one epoch are by the same slave |
| `ElectionSafety.AtMostOneWinnerPerEpoch` | src/cluster.c:2982-2998 | two wins of one epoch whose real votes together outnumber the voters are by the same slave, however many stale acknowledgements were counted |
| `ElectionSafety.OneVoteEach` | src/cluster.c:2619-2698 | in every run each master votes at most once per epoch |
| `ElectionSafety.RunKeepsSound` | src/cluster.c:2906-2998 | every run keeps votes, acknowledgements in flight, counters and wins consistent |
| `ElectionSafety.StepKeepsSound` | src/cluster.c:1610-2050 | each delivery, loss and local action keeps them so |
| `ElectionSafety.CountIsHonestExactlyWhenFresh` | src/cluster.c:2906-2911 | after every run the vote counter is the number of masters heard voting in the current election plus the deliveries that fell between clearing the counter and drawing the epoch; so it is honest if and only if none did since the last scheduling |
| `ElectionSafety.StaleCountsWindow` | src/cluster.c:2002-2014 | what the bookkeeping calls stale are exactly the deliveries that fell into that window since the last scheduling |
| `ElectionSafety.TallyAreVoters` | src/cluster.c:2002-2014 | the masters counted for a win are voters of its epoch, and with the stale acknowledgements they exceed half |
| `ElectionSafety.EpochDominance` | src/cluster.c:993-1010 | in every run no config epoch known or sent exceeds the accompanying currentEpoch, so a bumped epoch exceeds all that its node knows |
| `ElectionSafety.NextEpochDominates` | src/cluster.c:993-1010 | taking the next epoch puts a node above every config epoch it knows |
| `ElectionSafety.WinnerDominatesItsVoters` | src/cluster.c:2613-2624 | each counted voter knew, when voting, no config epoch above the epoch that was won |
| `ElectionSafety.StepKeepsDominated` | src/cluster.c:1671-1682 | every step keeps config epochs below the accompanying current epochs, in nodes and in packets |
| `ElectionWindow.TwoWinnersOfOneEpoch` | src/cluster.c:2906-2911 | a run from fresh nodes, all agreeing that two live masters and the failed one serve slots, that ends with two winners of one epoch at a quorum of two |
| `ElectionWindow.StaleVotesElect` | src/cluster.c:2906-2995 | the first half: a slave is elected in epoch 2 by two acknowledgements of the election of epoch 1 that it gave up |
| `ClusterServer.Server.ProcessHeaderOf` | src/cluster.c:1671-1682 | of a known sender the current epoch and the sender's config epoch become the greater of old and announced; nothing else changes, and a stranger's packet changes nothing |
| `ClusterServer.Server.CountVote` | src/cluster.c:2002-2014 | a vote is counted if and only if it comes from a known master that owns slots and is not older than the election |
| `ClusterServer.Server.ProcessUpdate` | src/cluster.c:2027-2042 | a greater config epoch reported about a known node is learned and makes it a master; anything else changes nothing |
| `ClusterServer.Server.SlotsAllowVote` | src/cluster.c:2674-2692 | the slot loop accepts if and only if no claimed slot is known to be served under a newer config epoch |
| `ClusterServer.Server.SendFailoverAuthIfNeeded` | src/cluster.c:2599-2699 | votes if and only if this is a master with slots that has not voted in its epoch, the request is current, its sender is a slave whose master failed (or the request is forced) and was not voted for in two timeouts, and no slot it claims has moved on; the answer carries this node's epochs, epoch and time of the vote are recorded, and otherwise nothing changes |
| `ClusterServer.Server.GetMaxEpoch` | src/cluster.c:949-966 | the greatest of the current epoch and all known config epochs |
| `ClusterServer.Server.BumpConfigEpochWithoutConsensus` | src/cluster.c:993-1010 | takes the next epoch if and only if its own is zero or some epoch it knows is greater; nothing else changes |
| `ClusterServer.Server.HandleConfigEpochCollision` | src/cluster.c:1058-1073 | the epoch moves if and only if two masters have the same one and the other name is greater, and then to the next current epoch |
| `ClusterServer.Server.HandleSlaveFailover` | src/cluster.c:2837-2998 | scheduling, requesting votes and winning happen exactly under the tests on role, clock, data age and votes. A request opens a new epoch and asks every other known node once, for the master's slots under its config epoch. A win makes the node a master without a master that owns its own and the old master's slots; the same slots stay assigned, the old master has none, no other owner or node changes. The delay is half a second, a random part and a second per slave that is ahead |
| `ClusterServer.Server.ElectionPhase` | src/cluster.c:2853-2967 | a new attempt is due exactly when the last one is older than twice the timeout; otherwise it waits for its time, which moves by a second for each place the rank got worse |
| `ClusterServer.Server.GetSlaveRank` | src/cluster.c:2713-2727 | the number of other slaves of the master that announced more data, zero exactly when none did |
| `ClusterServer.Server.ClusterSize` | src/cluster.c:3672-3694 | the number of masters that own slots, failing ones included |
| `ClusterServer.Server.ReplaceYourMaster` | src/cluster.c:2799-2815 | a slave becomes a master without a master: a slot is its own afterwards if and only if it was its own or the old master's, every other owner and every other node stays, the old master owns none; a master or a slave of nobody changes nothing |
| `ClusterServer.Server.AskForVotes` | src/cluster.c:2969-2975 | a new current epoch, which is the election's, before the requests are made |
| `ClusterServer.RequestsReachEveryone` | src/cluster.c:2557-2570 | one request to every other known node and to nobody else, with the sender's epoch, its master's config epoch and exactly its master's slots |
| `ClusterServer.WinTakesOver` | src/cluster.c:2982-2998 | the protocol's win is that take-over and no other change |
| `ClusterElection.ClaimsUnderOwnersEpoch` | src/cluster.c:2200-2243 | a packet claims slots under the config epoch of the node that owns them: the sender or its master |
| `ClusterCollision.CollisionsAreBounded` | src/cluster.c:1058-1073 | in every run a master with r masters of greater name changes its config epoch at most 2^r - 1 times, the greatest never |
| `ClusterCollision.RestIsDistinctness` | src/cluster.c:1946-1953 | a reachable state is left alone by fresh heartbeats if and only if all config epochs differ |
| `ClusterCollision.DisturbedExactlyByCollision` | src/cluster.c:1946-1953 | a fresh heartbeat moves a master's epoch if and only if the sender has the same epoch and the greater name |
| `ClusterCollision.RunKeepsOk` | src/cluster.c:1058-1073 | every run keeps each master's past epochs held by masters of greater name |
| `ClusterCollision.HeardRule` | src/cluster.c:1672-1682 | what one heartbeat does to the receiver's own epoch |
| `ClusterSlots.SlotTable.AddSlot` | src/cluster.c:3583-3591 | assigns a free slot, keeping slots array, bitmaps and counters in agreement |
| `ClusterSlots.SlotTable.DelSlot` | src/cluster.c:3593-3602 | frees a slot; the owner's bit was always set, so the assertion never fires |
| `ClusterSlots.SlotTable.MoveSlot` | src/cluster.c:4257-4258 | SETSLOT NODE rebinds one slot and nothing else |
| `ClusterSlots.SlotTable.DelNodeSlots` | src/cluster.c:3604-3614 | frees exactly the node's slots, leaves its counter at zero and returns how many there were |
| `ClusterSlots.SlotTable.DelNode` | src/cluster.c:886-913 | frees exactly the node's slots, forgets imports from and migrations to it, and forgets the node |
| `ClusterSlots.SlotTable.ReplaceMaster` | src/cluster.c:2809-2815 | gives every slot of the old master to the new one and no other |
| `ClusterSlots.SlotTable.UpdateSlotsConfigWith` | src/cluster.c:1511-1608 | a message about the node itself is discarded; otherwise a claimed slot goes to the sender if it is not being imported and its owner is unknown or has a smaller epoch, and every other slot keeps its owner. The node turns into a replica exactly when its master lost a slot and has none left, or deletes the keys of exactly the slots it lost; a slave without a master faults exactly when an unassigned slot is claimed |
| `ClusterSlots.CountersAddUp` | src/cluster.c:3542-3581 | the per-node counters sum to the number of assigned slots |
| `SlotConvergence.OwnedByGreatestClaimant` | src/cluster.c:1511-1571 | after all claims were delivered, in any order and with any repetition, each claimed slot belongs to a claimant of greatest epoch |
| `SlotConvergence.ClaimsConverge` | src/cluster.c:1511-1571 | without ties, two nodes that heard all claims in different orders have the same table |
| `SlotConvergence.DistinctEpochsSuffice` | src/cluster.c:1511-1571 | pairwise distinct config epochs leave no ties |
| `SlotConvergence.ConvergesExactlyWithoutTies` | src/cluster.c:1534-1571 | from an empty table the order of delivery is irrelevant if and only if no slot has two claimants tied for the greatest epoch |
| `SlotConvergence.SlotAfterDeliver` | src/cluster.c:1888-1900 | one heartbeat, slot by slot, although the table is scanned only when the claimed bitmap differs |
| `AofClients.ClientsRecover` | src/aof.c:542-606 | in every run of clients giving commands and of the server flushing, rewriting, switching and crashing, in which nobody restores a value with a time to live: the dataset is what the commands that changed something left, and with the log on a restart brings back the dataset after the first of them, all up to the moment everything was last on disk, all when the buffer is empty; only a value given with its deadline may come back without it |
| `AofClients.FedTextExecutes` | src/aof.c:542-606 | whatever log a command is fed to in whatever database, loading the text executes that command there: the dataset is the one the command left when it ran, except for RESTORE with a time to live read at another time |
| `AofClients.DeedsReplay` | src/aof.c:542-606 | replaying what all commands left in the log leaves the dataset they left |
| `AofClients.TornExactly` | src/aof.c:562-585 | what a cut between value and deadline leaves is the value without a deadline, never what the command left, and what was there before only if that was the same |
| `AofClients.DeadlineIsLost` | src/aof.c:562-568 | a run in which SETEX is written in part and a restart finds the key without a deadline |
| `AofDurability.RecoversAPrefix` | src/aof.c:660-835 | in every reachable state with the log on, loading the file succeeds and rebuilds the dataset after the first m logged commands, m covering all up to the last complete flush or switch |
| `AofDurability.FlushConserves` | src/aof.c:318-456 | over every run, file and buffer together are every byte fed, the size counter is the file's length, and the whole log replays to the current dataset |
| `AofDurability.HandoffConserves` | src/aof.c:95-194 | over every run, the child's diff, the pipe and the parent's blocks are the text of what was executed since the fork, each command in its database, and a finished child leaves the pipe empty |
| `AofDurability.SwitchLosesNothing` | src/aof.c:1468-1577 | the switched file is the image followed by exactly those commands and replays to the current dataset, so dropping the buffer loses nothing |
| `AofDurability.TurnOffLosesNothing` | src/aof.c:208-236 | switching the log off with a complete write leaves a file that loads to the dataset of that moment |
| `AofDurability.StepKeepsInv` | src/aof.c:208-275 | executing, flushing, forking, sending, reading, asking, answering, finishing, dying, switching, turning the log on or off and crashing all keep the invariant |
| `AofDurability.TransferKeepsRewrite` | src/aof.c:1210-1305 | moving bytes from blocks to pipe to child neither loses, repeats nor reorders any, and nothing is sent after the stop |
| `AofDurability.RestartLoads` | src/aof.c:800-831 | restarting from any reachable file executes the whole commands on disk and leaves a file that holds just these |
| `AofReplay.FedReplays` | src/aof.c:542-606 | whatever log the fed commands are appended to, they replay in the database they ran in, provided aof_selected_db, when set, is where that log ends |
| `AofRecovery.CutLogLoads` | src/aof.c:712-831 | a log cut at any byte but the first loads exactly its whole commands, never reaches the format error and is truncated right after them |
| `AofRecovery.LogLoads` | src/aof.c:712-785 | a printed log parses back to the commands it was printed from |
| `AofRecovery.RecoveryIsStable` | src/aof.c:800-831 | loading again after truncation executes the same commands and cuts no more |
| `AofRecovery.ReadsCommand` | src/aof.c:726-762 | a printed command is read back whatever follows it |
| `AofRecovery.CutCommand` | src/aof.c:726-762 | a command cut anywhere after its first byte is read as cut short |
| `AofRecovery.TransactionsSurviveExactly` | src/aof.c:771-789 | transactions are recovered whole or not at all if and only if the cut falls inside none of them |
| `AofRecovery.TornTransaction` | src/aof.c:771-789 | a transaction of two writes of which a cut log executes one |
| `AofDamage.NoStar` | src/aof.c:732 | a log followed by anything but a star is refused as badly formatted after its commands, whether or not it may be truncated |
| `AofDamage.NoArguments` | src/aof.c:734-735 | a count of zero or below is refused likewise |
| `AofDamage.NoDollarSign` | src/aof.c:747 | a command with an argument that does not start with a dollar sign is refused likewise |
| `AofDamage.UnknownCommandRefused` | src/aof.c:765-769 | a command that is not in the table is refused likewise, as unknown |
| `AofDamage.Unreadables` | src/aof.c:733 | a star before a zero byte in a line that ends is an unrecoverable error, not a cut |
| `AofDamage.CutLogRefused` | src/aof.c:805-834 | without leave to truncate, a log cut inside a command or a transaction is refused after its whole commands, and any other loads |
| `AofDamage.OpenExactly` | src/aof.c:787-789 | the end is inside a transaction exactly when a MULTI comes after every EXEC and DISCARD |
| `AofLoad.LoadAppendOnlyFile` | src/aof.c:660-835 | the loops over commands and arguments give the outcome of the reader: empty exactly for the empty file, with an RDB image in front exactly when it starts with REDIS, loaded, truncated or refused as the lemmas of `AofRecovery` and `AofDamage` say |
| `AofLoad.ReadArguments` | src/aof.c:741-762 | the argument loop reads as many bulk strings as declared, or says why not |
| `AofFormat.CatAppendOnlyGenericCommand` | src/aof.c:480-503 | appends the array header and one bulk string per argument |
| `AofFormat.DecimalReads` | src/aof.c:486-496 | the digits of a length read back as that length, whatever follows |
| `AofBuffers.Aof.RewriteBufferAppend` | src/aof.c:125-169 | the joined blocks grow by exactly the text; no block overflows and only the first and last are not full |
| `AofBuffers.Aof.ChildWriteDiffData` | src/aof.c:95-122 | whatever write(2) answers, what entered the pipe is what left the front of the blocks; it stops only at the stop, out of blocks, or when write(2) takes nothing |
| `AofBuffers.Aof.RewriteBufferWrite` | src/aof.c:174-194 | succeeds if and only if every block was written whole, and then has appended all of them; else it fails after a prefix |
| `AofBuffers.Aof.AofWrite` | src/aof.c:278-298 | writes as much of the text as write(2) takes before its first error, so a short result means an error |
| `AofBuffers.GrantedUpToError` | src/aof.c:278-298 | short writes and interruptions go on with the next answer, an error ends the writing whatever would follow |
| `AofBuffers.Aof.FlushAppendOnlyFile` | src/aof.c:318-478 | postponed exactly while an fsync is in progress and for less than two seconds, otherwise one flush of the state machine; with the policy always the server exits on a write error and otherwise everything is written and synchronised. Which fsync follows, the time of the last fsync and the start of the postponement are determined for every policy |
| `AofBuffers.Aof.WriteBuffer` | src/aof.c:356-445 | the write is whole exactly when write(2) takes all; a short one is removed, or kept and taken off the buffer |
| `AofBuffers.Aof.FeedAppendOnlyFile` | src/aof.c:542-606 | buffer, blocks and selected database become what the state machine says for the translated command, whose text `AofClients.FedTextExecutes` is about; the server stops exactly when the assertion fails |
| `AofBuffers.SelectText` | src/aof.c:548-555 | the SELECT printed by hand is the text of the command |
| `AofExpire.LoggedReplays` | src/aof.c:512-589 | for every command that changed something, replaying what was logged at any time, in its database, leaves the dataset the command left: the same values at the same keys with the same absolute deadlines, a key whose deadline had passed gone. It fails exactly for RESTORE with a time to live read at another time |
| `AofExpire.ExpireIsAbsolute` | src/expire.c:385-430 | EXPIRE, PEXPIRE, EXPIREAT and PEXPIREAT, logged as a deadline or, when it has passed, as the deletion it became |
| `AofExpire.RestoreDrifts` | src/cluster.c:4697-4751 | RESTORE with a time to live of a second, read back five milliseconds later, lives five milliseconds longer |
| `AofExpire.LoggedOnALaterReading` | src/aof.c:512-540 | the clock is read again for the log: a relative deadline is logged later than it was set by just the time in between, wrap-around included |
| `AofExpire.ScanFindsTime` | src/aof.c:569-585 | looking at every option of an accepted SET finds the time that SET itself used, unless a time option is followed by the name of the other unit; then it finds both |
| `AofExpire.TripsExactly` | src/aof.c:578 | the assertion that not both units were found fails exactly for those accepted SETs |
| `AofExpire.TrippingSet` | src/aof.c:578 | SET k v EX px EX 10 is one |
| `AofExpire.Translate` | src/aof.c:557-589 | the branches, the loop over the options and the assertion compute the translation that `AofExpire.LoggedReplays` is about |
| `AofRewrite.CollectionSurvives` | src/aof.c:862-939 | a list or set of any size: the emitted text loads as commands on its key whose replay rebuilds the list in order, or the set |
| `AofRewrite.RewriteObject` | src/aof.c:862-939 | the loop emits the text of commands of at most 64 elements |
| `AofRewrite.EmitsChunks` | src/aof.c:862-888 | every command declares exactly the arguments that follow it |
| `BitCount.RedisPopcount` | src/bitops.c:40-92 | for every string, length and starting alignment, the count is the number of set bits |
| `BitCount.BlockCounts` | src/bitops.c:54-87 | 28 bytes at a time: the gathered top byte is the number of set bits of the block |
| `BitCount.GatherSums` | src/bitops.c:80-86 | lanes of at most 56 make at most 224 in the top byte, so the 32-bit multiplication loses and carries nothing |
| `BitCount.FoldedWord` | src/bitops.c:66-86 | folding a word puts the bit count of each byte into its lane |
| `BitCount.FoldedByLane` | src/bitops.c:66-86 | no borrow or carry crosses a byte while folding |
| `BitString.RedisBitpos` | src/bitops.c:101-186 | for every string and alignment the first bit of the kind sought, -1 exactly when a 1 is sought and there is none, the bit length when there is no 0 |
| `BitString.ScanWord` | src/bitops.c:161-186 | the last scan always hits, so the panic is never reached |
| `BitString.LoadWord` | src/bitops.c:151-159 | loads up to eight bytes as a big-endian number, zero filled |
| `BitString.WordIsSkip` | src/bitops.c:132-142 | a machine word is skipped exactly when all its bytes are |
| `BitString.ValueBit` | src/bitops.c:151-180 | the bits of the loaded word are the bits of the string |
| `Bitfield.IncrBy` | src/bitops.c:1008-1082 | answer and field afterwards are the sum under WRAP, SAT or FAIL, for signed and unsigned fields of 1 to 63 bits at any offset, and no other bit changes |
| `Bitfield.GetThroughCopy` | src/bitops.c:1083-1116 | reading through the nine-byte copy equals reading the string extended with zeros |
| `Bitfield.SetUnsignedBitfield` | src/bitops.c:209-222 | the field becomes the low bits of the value and every other bit stays |
| `Bitfield.GetUnsignedBitfield` | src/bitops.c:229-241 | the field as a number |
| `Bitfield.GetSignedBitfield` | src/bitops.c:243-263 | the field as a number in two's complement |
| `Bitfield.FieldAfterSet` | src/bitops.c:209-241 | what was stored is read back modulo 2^bits |
| `Bitfield.SignedCheckIsRight` | src/bitops.c:325-375 | for a value of the range and any 64-bit increment the check reports exactly the overflows, with the wrapped or saturated result |
| `Bitfield.UnsignedCheckIsRight` | src/bitops.c:288-323 | the same for unsigned fields |
| `Bitfield.WrappedIsCongruent` | src/bitops.c:355-373 | the wrapped result is the number of the range congruent to the sum |
| `Bitfield.ResultExactly` | src/bitops.c:288-375 | saturating gives the nearest number of the range, refusing happens exactly outside it, wrapping gives the congruent number |
| `Bitfield.SetCheckExactly` | src/bitops.c:288-375 | for SET the check is right if and only if it does not saturate a signed value so low that max - value overflows, or a negative value for an unsigned field; otherwise it answers the maximum |
| `Bitfield.Set` | src/bitops.c:1008-1082 | answers the old value; the field then holds the value under WRAP, SAT or FAIL, or the maximum where the check is wrong, and no other bit changes |
| `Bitfield.SaturatesTheWrongWay` | src/bitops.c:325-345 | the least 64-bit value saturated to eight bits gives 127 |
| `SlotIndex.Keyspace.DbAdd` | src/db.c:167-174 | adds the key; counters and index stay those of the stored keys |
| `SlotIndex.Keyspace.DbSyncDelete` | src/db.c:248-258 | deletes the key and its expire if present; counters and index stay those of the stored keys |
| `SlotIndex.Keyspace.SlotToKeyUpdateKey` | src/db.c:1371-1388 | moves one counter by one and one entry in or out |
| `SlotIndex.Keyspace.GetKeysInSlot` | src/db.c:1408-1423 | returns min(count, total) different keys, all of the slot |
| `SlotIndex.Keyspace.DelKeysInSlot` | src/db.c:1427-1446 | terminates, removes exactly the keys of the slot and counts them |
| `SlotIndex.Keyspace.SetExpire` | src/db.c:1044-1051 | expires stay a subset of the keys |
| `SlotIndex.Keyspace.RemoveExpire` | src/db.c:1033-1038 | removes the expire and says whether there was one |
| `SlotIndex.KeyHashSlot` | src/cluster.c:643-662 | hashes the text between the first brace and the first closing brace after it, or the whole key; the next four rows say of every key which |
| `SlotIndex.SameTagSameSlot` | src/cluster.c:643-662 | keys with the same tag share a slot whatever surrounds it |
| `SlotIndex.NoTag` | src/cluster.c:649-650 | a key without an opening brace is hashed whole |
| `SlotIndex.OpenTag` | src/cluster.c:655-657 | so is a key whose first opening brace is never closed |
| `SlotIndex.EmptyTag` | src/cluster.c:655-657 | so is a key with nothing between the two |
| `SlotIndex.EveryKeyHasASlot` | src/cluster.c:643-662 | every key is one of these or has a tag, whose hash is then its slot |
| `SlotIndex.NothingMore` | src/db.c:1417-1420 | after the first entry of another slot none of this slot follows, so the walk may stop |
| `SlotIndex.KeysChange` | src/db.c:1371-1388 | a new key adds one to its own slot and one entry, and changes no other slot |
| `CrcTable.TableIsPolynomial` | src/crc64.c:42-171 | each of the 256 constants is eight steps of the division by the Jones polynomial |
| `Dump.Crc64` | src/crc64.c:173-181 | the result is the remainder of dividing the message, bit by bit, by the Jones polynomial |
| `Dump.StepIsDivision` | src/crc64.c:178 | for every state and byte the table step is eight steps of that division on the state plus the byte |
| `Dump.CrcIsRemainder` | src/crc64.c:173-181 | the CRC of every string is that remainder |
| `Dump.CheckValue` | src/crc64.c:188-194 | the check value of the source |
| `Dump.StepKeepsStates` | src/crc64.c:178 | different states stay different on the same byte |
| `Dump.StepKeepsBytes` | src/crc64.c:178 | different bytes lead one state to different states |
| `Dump.OneByteChangesCrc` | src/crc64.c:173-181 | changing one byte of a string of any length changes its CRC |
| `Dump.PayloadIsAccepted` | src/cluster.c:4621-4671 | every payload that was created is accepted |
| `Dump.OneChangedByteIsRefused` | src/cluster.c:4621-4671 | a created payload with any one byte changed is refused |
| `Dump.CreateDumpPayload` | src/cluster.c:4621-4648 | appends the version and, little-endian, the remainder of body and version |
| `Dump.VerifyDumpPayload` | src/cluster.c:4654-4671 | accepts exactly payloads of ten bytes or more, of a known version, whose last eight bytes are the remainder of the rest |
| `AdList.List.AddNodeHead` | src/adlist.c:88-106 | a fresh node with the value goes before the others; pointers and length stay consistent |
| `AdList.List.AddNodeTail` | src/adlist.c:114-132 | a fresh node with the value goes after the others |
| `AdList.List.InsertNode` | src/adlist.c:134-161 | a fresh node goes right before or after the given one |
| `AdList.List.DelNode` | src/adlist.c:167-180 | takes the node out and keeps the others in order |
| `AdList.List.Rotate` | src/adlist.c:330-343 | the last node becomes the first |
| `AdList.List.Join` | src/adlist.c:347-362 | concatenation, and the other list is left empty |
| `AdList.List.IterateDeleting` | src/adlist.c:186-240 | an iteration from either end that deletes any of the nodes it was just given visits each original node once, in order, and leaves exactly the others |
| `AdList.KeptExactly` | src/adlist.c:186-240 | what is left is every node that was not chosen, in the old order |
| `AdList.List.Dup` | src/adlist.c:250-280 | a fresh list of the values or of their copies, and null exactly when a copy fails |
| `AdList.CopiesExactly` | src/adlist.c:250-280 | copying succeeds exactly when the dup function does on every value, and holds what it made of each |
| `AdList.List.Index` | src/adlist.c:315-327 | the node at an index from the head or, negative, from the tail; null when there is none |

## Left out

- ElectionSafety.ElectionSafety: assumes that whoever votes in an epoch is in that epoch's electorate and that a winner knew all of it to serve slots, that no node restarts, is reset or takes over without votes, and that no packet is repeated; `lastVoteEpoch` is not saved after a vote, so a restart could vote twice.
- ElectionSafety.CountIsHonestExactlyWhenFresh: says when the counter is honest, not that a dishonest counter always elects a second winner; that one can is shown by the run of `ElectionWindow`.
- ClusterServer.Server.HandleSlaveFailover: the clock, the random delay, the manual failover's fields and the outcome of the data-age test are parameters, and the cluster size is counted anew instead of being read from the field that clusterUpdateState last set.
- ClusterCollision.CollisionsAreBounded: only the collision rule changes config epochs in its runs.
- SlotConvergence.ClaimsConverge: no slot is being imported or migrated, and each master makes one claim.
- ClusterSlots.SlotTable.UpdateSlotsConfigWith: the keys and the replication that follow are outcomes, not state.
- Cluster gossip, handshakes, failure detection, manual failover, MIGRATE and hard reset are not modelled.
- UfsTransform.TransformationSquare: for splits that name one element; `UfsSets.SquareExactly` has the exact condition for all. `UfsTransform.TransformMeans`, `UfsTransform.CpltFollows`, `UfsSpace.OneSquare` and `UfsSpace.WeaveIsSound` build on that case.
- UfsProtocol.Convergence: the relations are compared for runs whose splits name one element; with several names they may differ, as `UfsDivergence.ClientsDiverge` shows, and which runs with such splits still converge is left open.
- The union-find text is modelled as lists of names, not as characters: searching names with strstr and the ten-byte name buffers are not captured, and contexts are compared by the number of identifiers instead of the length of their text.
- UfsGraph.CudGraph.CreateLinks: adjacency lists are sequences; since new edges are put in front, walking a list while it grows is modelled as walking it as it was at the start of the inner loop.
- UfsValue.Value.CheckArgv: of a list of names the source tests the connection before the existence, and for an unknown name looks at a vertex that is not there; the model tests the existence first.
- UfsValue.Value.Execute: names that are no vertices, for which locateVex answers -1, are not modelled; nor is what the graph becomes when an operation is not acceptable in it, beyond staying a clique graph. FIND and UMEMBERS are modelled by the relation they read, not by their sorted text.
- AofDurability.RecoversAPrefix: a crash ends the process but keeps what was written; lost fsyncs and crashes while the log is waiting for its first rewrite are not steps of the model.
- AofDurability.SwitchLosesNothing: the image written by the child is any log that replays to the dataset at the fork; that lists and sets are written so is proved in `AofRewrite`, other types and the RDB image are not modelled.
- AofClients.ClientsRecover: what comes back is bounded below by what was written to the file, not by what fsync reached; images of a rewrite replay to the same dataset at any time, and deletions of overdue keys are commands of the run.
- AofExpire.LoggedReplays: for a master, with the clock read once for execution and log (`AofExpire.LoggedOnALaterReading` has the difference); renamed commands and the number of databases a SELECT may name are not modelled, and signed overflow, which the C standard leaves undefined, wraps.
- AofLoad.LoadAppendOnlyFile: what follows an RDB image, failing reads, and lengths that cannot be allocated are not modelled.
- BitCount.RedisPopcount: the table of bit counts is modelled by the count it holds.
- Bitfield.IncrBy: fields of 64 bits, where the source shifts by the width of the type, are not modelled.
- BITOP, BITCOUNT ranges and BITPOS ranges are not modelled.
- SlotIndex.KeyHashSlot: the CRC-16 of a text is an arbitrary function, so the index results hold for any.
- SlotIndex.Keyspace.DbSyncDelete: asynchronous deletion is not modelled.
- AdList.List.DelNode: the values of nodes are fixed at creation; the user's free and match functions and searching are not modelled.
- Event loops, replication, configuration, persistence to RDB and the other data types would add mostly simple members.
