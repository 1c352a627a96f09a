# Verification of the peer-to-peer battle royale game

The game is a small distributed system. A server registers clients, tells them about each other, notices failures through
their reports, keeps a replicated store of kill and death counts, and synchronises clocks. Clients flood their updates
(moves, shots, deaths) and the news of failed clients through the graph of their peers, and each client filters what
comes in before it shows it and passes it on.

This project models that system in Dafny and proves what it keeps over whole runs:

* the server: a class whose handlers are each proved to be one step of a relation over the abstract state, and theorems
  about every run of that relation (replication, read-latest, the connection statuses, fatal branches, partner graph,
  clock correction, exact counting);
* the worker of a client: a class proved against a function over values, and theorems about every sequence of deliveries
  (at-most-once, speed limit, completeness for honest players);
* the two floods: relations over a bag of messages, with bounds on the number of sends, termination, and what holds when
  no message is left; the network of workers is proved to refine the update flood;
* the stats files: the printer, the parser and the recovery at start-up.

## Layout

| file | contents |
|---|---|
| Base, Decimal | truncating division, sums over maps, sequences without repetitions; decimal text |
| ClientProcess | the client's stats map, files and clock (`Clients`), and their recovery (`StatsRecovery`) |
| World, TankServer | the server's steps and runs; the class whose methods perform them (`Server`) |
| Disks | what a run writes to a client, and what a restarted client gets back from its disk |
| ReadLatest, StaleRead, StatsCount | what the store guarantees, what it does not, and when counting is exact |
| Replicas | how many copies a put makes, and which of them a get asks |
| ConnectionRuns | the statuses (`ConnectionMachine`) and the fatal branches (`FatalBranches`) |
| Answers | which peers the server names, and what it says about them |
| PartnerGraph, ClockSync | connectedness by partners; skews after a synchronisation |
| Updates, RecordWorker | updates and distances; the worker (`Recording`) |
| AtMostOnce, Movement, Moves | duplicates; the speed limit; honest moves |
| Verdicts | which deliveries are accepted, in terms of the deliveries alone |
| Graphs | the graph of peers, and paths that avoid a client |
| UpdateFlood, WorkerNetwork, FailureFlood | the two floods, and the workers as one of them |
| Peers | the table of peers; what becomes of a removed peer (`RemovedPeers`) |
| PeerGraph, SplitGroups | the server and the tables together: who knows whom and who hears a player; a run that leaves two groups |
| Players | the players on the screen |

Handlers are atomic steps. Map iteration order, `rand.Perm`, clock readings, random nonces and which clients answer are
arguments or free choices. Calls from the server to clients succeed. A handle to a client is the id that its process
sent when it dialled. A client that dials in again is a new process, which has loaded its stats from the client's
directory; the directory outlives the process and holds nothing but what WriteKVPair wrote. Times are integers in
nanoseconds and coordinates are reals.

## Results that differ from what one would expect

* A client that missed a put while it was away is asked again after it comes back, because reads go to the last CONNECTED
  id of the list. For keys below 2^63 - 1 the last value is read exactly when the client asked was CONNECTED at the last
  put, and otherwise an earlier value (`ReadLatestIff`, `ReadsLastPutIff`, `StaleReadRun`).
* Keys from 2^63 on do not survive a restart; ids are random 64-bit numbers, so half of all players have such a key. Such
  a key is read correctly exactly when the client asked was also not restarted since the put; a restarted one makes the
  server answer with zeros that nobody put (`GetReadsSomePut`, `RestartLosesLargeKey`), and the player's count starts over
  (`StatsExactIff`). The key 2^63 - 1 survives a restart exactly when no file of a key between it and 10^19 follows its own
  in the directory; otherwise it comes back with the pair of the last such key (`LimitKeySurvives`,
  `LimitKeyOverridden`).
* A client calls Connect once its own dial has returned, which does not mean that the server has accepted its channel. If
  the Connect comes first, the synchronisation that it starts ends the server (`ConnectOvertakesAttach`, `UnreachableIff`).
* The report describes the clock synchronisation as the Berkeley algorithm, run at every Connect. A client replaces its
  offset by a correction that was measured with the old offset in force, so a second synchronisation undoes the first
  (`SkewAfterSync`, `SymmetricSyncAgreesIff`, `SecondSyncUndoesFirst`).
* The staleness check and the pruning read the clock separately. An update whose time falls between the two fences can be
  shown and sent twice, and so can one that was handled before the clock is set back (`RecordedAgainIff`,
  `TwoReadingsSendTwice`, `ClockSetBackSendsTwice`).
* A failure report that arrives before the synchronisation that a Connect starts makes the monitor use a nil client
  (`MonitorSafeIff`, `EarlyReportPanics`).
* A client asks the server for peers only while it has fewer than two. It ends up knowing its partner if and only if it
  asks in time, or its partner has it for a partner in turn and asks in time (`KnowsPartnerIff`). If this holds for all,
  every player hears every other one; if not, two groups can stay apart for as long as nobody else joins: clients may go
  on asking and are told nothing new (`EveryPlayerHears`, `LateAskingSplits`).
* The error of a shot is measured relative to the distance from the corner of the window, so a shot from exactly the
  recorded place is rejected when that place is within 60 pixels of the corner (`HonestShotPassesIff`).
* A rejected Connect unlocks a mutex twice, which ends the server unless another handler has taken it in between
  (`TankServer.Connect`).
* The report says that GetNodes returns a set of connected nodes; the code returns at most one (`PeersHandedOut`).

## Model

| member | source | states |
|---|---|---|
| Base.GoDivRem | server/server.go:348 | Go's division truncates toward zero: quotient times divisor plus a remainder with the dividend's sign |
| Decimal.AtoiFormatInt | client/clocks.go:35-36 | printing a counter and parsing it gives it back, for every int64 |
| Decimal.AtoiFormatUint | client/crdt.go:38-40 | a printed key is parsed exactly up to 2^63 - 1, and as that limit beyond |
| Decimal.SplitFirst | client/crdt.go:35 | splitting at a separator returns what stands before its first occurrence, then the split of the rest |
| Decimal.FormatOrder | client/crdt.go:23 | among numbers with as many digits the order of the file names is that of the numbers |
| Decimal.LargeFormat | client/crdt.go:23 | from 2^63 - 1 on, keys have 19 digits and begin with a nine, or 20 and begin with a one |
| Decimal.AtoiOfShortText | client/crdt.go:36-38 | any text of at most 19 characters after a sign is parsed as the number its digits stand for, cut off at the limits, and as zero if it is not a number |
| Clients.KVStoreSetup | client/crdt.go:15-44 | every stats file yields an entry and every entry comes from the last of its key's files, in the sorted order of the names; a file without a second line is the only panic |
| Clients.ClientProcess.WriteKVPair | client/clocks.go:23-45 | the key's file holds exactly the new pair, and no other file changes |
| Clients.ClientProcess.KVClientGet | client/clocks.go:47-59 | the stored value, zeros for an absent key |
| Clients.ClientProcess.KVClientPut | client/clocks.go:61-84 | the map and the key's file get the value, nothing else changes |
| Clients.ClientProcess.TimeRequest | client/clocks.go:88-94 | the hardware time plus the offset |
| Clients.ClientProcess.SetOffset | client/clocks.go:96-103 | the offset is replaced, not adjusted |
| Clients.ClockManager.SetOffset | clocklib/clocklib.go:16-18 | the offset is replaced |
| StatsRecovery.FileNameInjective | client/clocks.go:25 | different keys have different files |
| StatsRecovery.NegativeFileName | client/crdt.go:38-40 | a file named by a negative number stands for the key 2^64 plus it |
| StatsRecovery.FileContentsRoundTrip | client/clocks.go:35-39 | the file has the kills in its first line and the deaths in its second, and is read back as the same pair, whatever the signs |
| StatsRecovery.PutKeepsMirror | client/clocks.go:61-84 | a put keeps the directory an exact copy of the map |
| StatsRecovery.LoadIsRoundedCopy | client/crdt.go:28-41 | loading a copy returns every entry under the nearest key in range, and nothing else |
| StatsRecovery.RestartRecoversTheMap | client/crdt.go:15-44 | after any sequence of puts the rebuilt map equals the map in memory if and only if no key written is 2^63 or more |
| StatsRecovery.LargeKeysCollapse | client/crdt.go:38-40 | a larger key is lost; the limit key holds the value of one of the keys at or beyond it |
| StatsRecovery.StartUpNeverPanics | client/crdt.go:35-37 | no sequence of puts leaves a file that start-up panics on |
| StatsRecovery.SmallKeySurvives | client/crdt.go:28-41 | loading any directory that holds only written files brings back the last value of every key below 2^63 - 1 |
| StatsRecovery.LargeKeyIsLost | client/crdt.go:38-40 | and no key beyond |
| StatsRecovery.LimitKeySurvives | client/crdt.go:23-41 | the key 2^63 - 1 is loaded with its own value if no file of a larger key with 19 digits is there |
| StatsRecovery.LimitKeyOverridden | client/crdt.go:23-41 | and with the value of the largest such key if one is |
| Disks.DeliveredIsOnDisk | client/clocks.go:61-84 | what was last written to a client is on its disk, through any other writes and restarts |
| Disks.SmallKeyReloaded | client/client.go:157-161 | a restarted client has the last value written to it of every key below 2^63 - 1 |
| Disks.LargeKeyNotReloaded | client/client.go:157-161 | and of no key beyond |
| Disks.LimitKeyReloaded | client/client.go:157-161 | under 2^63 - 1 a restarted client has the last value written to it, unless its disk has the file of a larger key with 19 digits, and then the value of the largest |
| Disks.OverrideWasWritten | client/client.go:157-161 | that value was written to the client under such a key |
| World.ConnectedAmongFacts | server/server.go:214-220 | the filter keeps exactly the CONNECTED ids, without adding repetitions |
| World.AddHoldersFacts | server/server.go:276-285 | recording targets keeps the old list as a prefix, adds exactly the targets, repeats nobody and leaves other keys alone |
| World.RunHandlesValid | server/server.go:641-679 | in every reachable state a handle leads to the process of its own connection |
| World.RunHoldersValid | server/server.go:274-286 | in every reachable state the holders of a key are registered and listed once, so lookups are never nil |
| Server.TankServer.constructor | server/server.go:85-113 | the initial state |
| Server.TankServer.ReachedMeetsRequires | server/server.go:641-679 | in every reachable state the preconditions of the handlers on channels and holders hold |
| Server.TankServer.Register | server/server.go:371-419 | a free name gets a new NOTINGAME connection; a used one is refused without effect |
| Server.TankServer.AttachClient | server/server.go:641-679 | the connection gets its channel; an unknown id ends the server |
| Server.TankServer.FindOtherConnected | server/server.go:468-476 | some other CONNECTED client, or none exactly when there is none |
| Server.TankServer.Connect | server/server.go:421-502 | the connection is made anew as CONNECTED with some other CONNECTED client for partner; unknown and connected callers change nothing, and are refused if another handler has taken the lock, and end the server if not |
| Server.TankServer.Disconnect | server/server.go:504-537 | the client becomes NOTINGAME; an unknown one is refused |
| Server.TankServer.GetNodes | server/server.go:539-609 | by statuses: a missing or DISCONNECTED partner is replaced by another CONNECTED client if there is one, the partner is the reply if CONNECTED, and a RECONNECTED caller becomes CONNECTED |
| Server.TankServer.NotifyFailure | server/server.go:611-623 | only a CONNECTED client becomes DISCONNECTED |
| Server.TankServer.MonitorTick | server/server.go:625-639 | exactly the DISCONNECTED clients that answer become RECONNECTED; it panics exactly when one of them has no clock client |
| Server.TankServer.KVGet | server/server.go:130-196 | by positions and statuses: asks the CONNECTED holder that stands last in the list, with the three outcomes of the reply and the fatal one |
| Server.TankServer.ConnectedHolders | server/server.go:211-220 | the CONNECTED holders in list order |
| Server.TankServer.Candidates | server/server.go:227-243 | every CONNECTED client that is not chosen yet, once |
| Server.TankServer.Perm | server/server.go:247 | a permutation of the indices |
| Server.TankServer.ExtendReplicas | server/server.go:222-251 | distinct CONNECTED clients that begin with the holders: three if there are that many, all if not, and no new ones besides three holders |
| Server.TankServer.StoreOnClients | server/server.go:253-286 | exactly the chosen clients store the pair and are recorded; fatal exactly when one has no channel |
| Server.TankServer.KVPut | server/server.go:198-293 | one Put step for some admissible choice of targets, at least three if that many are CONNECTED, or fatal, exactly when one of them has no channel |
| Server.TankServer.MeasureClocks | server/server.go:318-346 | measures exactly the CONNECTED clients, each with half its round trip added, in any order |
| Server.TankServer.CorrectClocks | server/server.go:350-363 | sets exactly the measured clients to the average minus their measurement |
| Server.TankServer.SyncClocks | server/server.go:304-369 | one SyncClocks step; fatal only with a CONNECTED client that has no channel |
| ReadLatest.ListedIffDelivered | server/server.go:274-286 | over every run a client is on a key's list exactly when it was written to |
| ReadLatest.ProcessStoresDelivered | client/clocks.go:61-84 | whatever its disk, a client stores what was last written to it since its process was started, for every key |
| ReadLatest.HoldersStoreLastDelivered | server/server.go:198-293 | over every run, with any restarts, a holder stores what was last written to it, for keys below 2^63 - 1 |
| ReadLatest.LargeKeysStoreSinceAttach | client/crdt.go:38-40 | and for keys beyond exactly what was last written to it since its process was started |
| ReadLatest.LimitKeyStored | client/crdt.go:23-41 | and for 2^63 - 1 what was last written to it, unless a restart has put another key's pair in its place |
| ReadLatest.GetReadsKept | server/server.go:130-196 | for every key a read returns what the client asked has kept in that sense, zeros when nobody is asked |
| ReadLatest.GetReadsSomePut | server/server.go:130-196 | with arbitrary disconnections and restarts a value read was put earlier under that key, unless the client asked has lost a key beyond the limit, and then it is zeros, or has another key's pair under the limit key, and then it was put under that other key |
| ReadLatest.SameProcessStoresLastPut | server/server.go:211-286 | with nothing said about disks: every holder CONNECTED at the last put whose process is still the same stores its value, for every key |
| ReadLatest.SameProcessReadsLastPut | server/server.go:144-150 | so a read that asks such a client returns the last put |
| ReadLatest.PutReplicates | server/server.go:211-286 | a put reaches distinct CONNECTED clients, all CONNECTED holders among them, as many as the larger of their number and min(3, CONNECTED clients), and each then stores the value |
| Replicas.PutReachesThree | server/server.go:222-251 | over every run: after a put three CONNECTED clients store the value, or all if there are fewer; exactly three are written to if at most three CONNECTED clients had the key, and nobody else's entry changes |
| Replicas.AskedIff | server/server.go:144-150 | a client is asked if and only if it is the last CONNECTED one in the key's list |
| Replicas.ListedInOrder | server/server.go:274-286 | over every run whoever stands earlier in a list was written the key no later |
| Replicas.GetAsksLatestRecruit | server/server.go:130-196 | over every run a get is unavailable exactly when no client that was ever written the key is CONNECTED; if one is, the one asked got the key for the first time no earlier than any other such client, and the reply is its entry, or that the caller has it |
| ReadLatest.PutRecordsHolders | server/server.go:274-286 | the key's list stays free of repetitions with the old list as a prefix and registered ids only |
| ReadLatest.ReadLatestIff | server/server.go:144-150 | for every key the last put is read if the client asked was CONNECTED at it and has kept it: beyond the limit not restarted since, at the limit no other pair in its place; otherwise an earlier put of that client, or zeros if it has lost the key, or that other pair |
| ReadLatest.RestartLosesLargeKey | client/crdt.go:38-40 | a restart after the last put makes every read of a key beyond the limit return zeros |
| ReadLatest.ReadsLastPutIff | server/server.go:144-150 | for values that are written once and are not zeros, exactly then |
| StaleRead.RejoinedHolderIsStale | server/server.go:144-150 | from any state: a holder that leaves, misses a put and comes back in a new process with its entry is asked again and returns its old value |
| StaleRead.StaleReadRun | server/server.go:144-150 | a concrete run from the start of the server, with intact disks, whose last read returns the value before the last put |
| StatsCount.WritesCountExactly | client/client.go:306-317 | in serial increments, as long as reads are fresh, each write stores the exact numbers of kills and deaths |
| StatsCount.StaleReadLosesIncrements | client/client.go:350-362 | the first read that is not fresh makes its write wrong |
| StatsCount.StatsExactIff | client/crdt.go:46-68 | for every id all writes are exact if and only if every read asks a client that was CONNECTED at the write before and has kept it, or has the same pair of another key in its place |
| ConnectionMachine.NamesTaken | server/server.go:380-393 | over every run the names taken are those of all Register calls so far, so a name is accepted once |
| ConnectionMachine.StatusTable | server/server.go:411-636 | over every run each client's status changes exactly as the table of the four statuses says, for every kind of event |
| ConnectionMachine.MonitorRecovers | server/server.go:629-635 | a round of the monitor makes exactly the DISCONNECTED clients that answer RECONNECTED, and changes nothing else |
| ConnectionMachine.AnsweringClientReturns | server/server.go:593-599 | a client that answers the monitor and later asks for peers is CONNECTED, unless it leaves, is reported or registers in between |
| ConnectionMachine.StatusChanges | server/server.go:478-486 | the only ways to become CONNECTED or RECONNECTED |
| ConnectionMachine.FailedClientIsNotUsed | server/server.go:611-639 | a DISCONNECTED client is not handed out, written to or asked before a new Connect, or a Recover followed by its own GetNodes |
| ConnectionMachine.ReportDisconnects | server/server.go:617-620 | a report makes a CONNECTED client DISCONNECTED and leaves all else in the state as it was; about any other client it changes nothing |
| ConnectionMachine.PeersHandedOut | server/server.go:564-591 | at most one peer, CONNECTED at that moment, and not the caller if its id is nonzero |
| ConnectionMachine.ZeroIdGetsItself | server/server.go:568-589 | the nonzero condition is needed |
| Answers.GetNodesAnswer | server/server.go:564-599 | over every run: who is handed out and who becomes the partner, by the statuses at that moment, and that nothing else changes |
| Answers.ConnectAnswer | server/server.go:464-486 | over every run an accepted Connect leaves its caller with another CONNECTED client for partner, none if there is none, its own addresses, and its channel |
| Answers.InfoIsCurrent | server/server.go:478-486 | the server knows every client in the game by the addresses and the name of its last accepted Connect |
| Answers.PeersAsTheySaid | server/server.go:570-588 | whatever is said about a peer is what that peer itself sent with an accepted Connect, the last one if the caller had lost its partner; the empty record excepted, which client 0 makes possible |
| FatalBranches.AttachedIff | server/server.go:641-679 | over every run a client has a channel exactly when the server has accepted it since the client registered |
| FatalBranches.UnreachableIff | server/server.go:323-327 | over every run calling a client is fatal exactly when it is CONNECTED and its channel has not been accepted since it registered |
| FatalBranches.ConnectOvertakesAttach | client/clocks.go:146-176 | a run from the start in which a Connect comes before the acceptance of the channel, and after which no synchronisation can succeed |
| FatalBranches.InGameHasChannel | server/server.go:641-679 | in runs in which no accepted Connect overtakes the acceptance of its channel, whoever is in the game has a channel |
| FatalBranches.BeenInGameHasChannel | server/server.go:641-679 | in such runs so has whoever was in it since last registering |
| FatalBranches.CallsNeverFatal | server/server.go:175-180 | in every state of such runs KVGet, KVPut and syncClocks meet their non-fatal conditions |
| FatalBranches.ClockClientIffSynced | server/server.go:331-333 | a connection has a clock client exactly when it was synchronised after its last Connect or Register |
| FatalBranches.MonitorSafeIff | server/server.go:630-634 | the monitor is safe exactly when every DISCONNECTED client was synchronised since its last Connect |
| FatalBranches.EarlyReportPanics | server/server.go:478-486 | a report between a Connect and its synchronisation makes the next round panic |
| PartnerGraph.RunRanked | server/server.go:465-486 | while clients only join, everybody but the first joiner has a partner that joined earlier |
| PartnerGraph.PathToFirst | server/server.go:566-583 | following partners leads to the first joiner |
| PartnerGraph.PlayersAreConnected | server/server.go:465-486 | any two CONNECTED clients are joined by partner links |
| ClockSync.MeasuredIsSkew | server/server.go:329-342 | the measurement is the skew, off by at most half the round trip |
| ClockSync.SkewAfterSync | client/clocks.go:96-103 | afterwards the skew is minus the client's old offset, within half the round trip rounded up |
| ClockSync.FirstSyncAgrees | server/server.go:314-366 | from zero offsets: within half a round trip of the server, and of each other within the sum |
| ClockSync.NewProcessAgrees | client/clocks.go:96-103 | a client in a new process is within half a round trip of the server after the first synchronisation that reaches it, whatever was synchronised before |
| ClockSync.ServerKnowsOffset | server/server.go:355-359 | from a synchronisation on, until the client starts over, the server has on record the offset that the client has |
| ClockSync.SymmetricSyncAgreesIff | client/clocks.go:99 | with symmetric delays the clocks agree exactly if and only if the old offset was zero |
| ClockSync.SecondSyncUndoesFirst | server/server.go:499-500 | for any delays and any old offset: after two synchronisations the skew is the one before them, less the server's first correction, off by the errors of the two measurements, each at most half a round trip |
| ClockSync.SumOfDifferences | server/server.go:355 | the corrections add up to the count times the average minus the sum of the measurements |
| ClockSync.CorrectionsAddUp | server/server.go:348-366 | the server's correction and the new offsets add up to the server's old offset minus the dropped remainder, which is at most the number of clients in size |
| Updates.TriangleInequality | client/state.go:128-132 | reaches of consecutive steps add up |
| Recording.OlderPrefix | client/state.go:45-59 | the length of the longest prefix of updates older than the fence |
| Recording.PlayerRecord.Accept | client/state.go:32-40 | the time always changes, position and angle only for a POSITION |
| Recording.RecordWorker.PruneHistory | client/state.go:42-60 | removes exactly the longest prefix older than the fence from the queue, and its nonces from the map |
| Recording.RecordWorker.Enqueue | client/state.go:80-82 | the nonce and the update are written down together |
| Recording.RecordWorker.Validate | client/state.go:85-140 | the verdict for each kind of update, and its effect on the records; deaths and the client's own updates are trusted, except for a position outside the window |
| Recording.RecordWorker.Handle | client/state.go:65-146 | one iteration: stale and seen updates are dropped, a new nonce is written down before validation, accepted updates go to both channels |
| Recording.RecordWorker.Work | client/state.go:62-148 | the loop performs the iterations in order |
| AtMostOnce.LookupIsScan | client/state.go:75-82 | in every run a lookup in the map agrees with a scan of the queue, which has each nonce once |
| AtMostOnce.RecordedIsRemembered | client/state.go:42-60 | every nonce ever written down is in the map, or its update is older than the fence |
| AtMostOnce.RecordedAtMostOnce | client/state.go:67-82 | no nonce is written down twice |
| AtMostOnce.SentAtMostOnce | client/state.go:142-146 | nothing goes to the channels twice, and both carry the same |
| AtMostOnce.ChannelsCarryAccepted | client/state.go:142-146 | both channels carry exactly the accepted updates, in their order |
| AtMostOnce.RecordedIff | client/state.go:62-82 | in terms of the deliveries alone: the worker takes up exactly the first delivery of each nonce, if its update is at most a second old |
| AtMostOnce.RecordedAgainIff | client/state.go:43-59 | exactly when a copy of a queued update is written down again |
| AtMostOnce.RecordedTwiceIff | client/state.go:42-82 | over every run with a clock that does not go back: a copy of an update written down before is written down again if and only if it is not stale and pruning at its delivery removes the queued copy with all before it |
| AtMostOnce.TwoReadingsSendTwice | client/state.go:67-73 | with two clock readings every position can be sent twice |
| AtMostOnce.ClockSetBackSendsTwice | client/clocks.go:99 | a clock that is set back also makes it fail |
| Movement.RecordFollowsAccepted | client/state.go:119-139 | between deaths the record is reachable from every position accepted before |
| Movement.SpeedLimit | client/state.go:125-136 | any two accepted positions with no death in between go forward in time and are at most 10 times the player's speed times the elapsed time apart |
| Movement.PositionsInWindow | client/state.go:114-117 | every position sent on or recorded lies in the window |
| Movement.DeathLiftsTheLimit | client/state.go:86-88 | right after a death exactly the positions in the window pass |
| Verdicts.RecordIsLastPosition | client/state.go:113-139 | over every run a player is on record exactly when it had an accepted position after its last accepted death, and with that position |
| Verdicts.AcceptedIff | client/state.go:84-140 | over every run: which updates are accepted, given the last accepted position of the player: the window, 1500 pixels a second, half the distance from the corner, angles between half and one and a half times the player's |
| Verdicts.OwnUpdatesAreTrusted | client/state.go:89-139 | a client accepts its own shots and its own positions in the window, however far it has moved |
| Verdicts.AcceptedExactly | client/state.go:62-148 | from the deliveries alone: the accepted ones are the first of each nonce that are at most a second old and pass |
| Moves.Player.DoLocalInput | client/client.go:377-415 | the local move for each combination of keys, clamped to the window, the place of the mouse on Enter, and the updates put into RecordUpdates in order with their stamps |
| Moves.HeldKeysTravel | client/client.go:380-394 | over any number of frames, held keys move the player straight in their direction, at 150 pixels a second along each axis and up to the border; opposite keys cancel |
| Moves.Player.FireBullet | client/client.go:417-427 | the update about a shot from 30 pixels before the player |
| Moves.ShotStartsAhead | client/client.go:419-420 | a shot starts 30 pixels from its player, straight ahead, with the player's id and angle and its own stamp |
| Moves.Player.Accept | client/player.go:44-50 | only a POSITION changes the player |
| Moves.ClampNearer | clientlib/update.go:78-83 | clamping does not increase the distance from a point in the window |
| Moves.MoveFollows | client/client.go:377-404 | a frame's move passes the speed check |
| Moves.HonestFollows | clientlib/update.go:54-83 | so does a later move after any losses in between |
| Moves.HonestMovesAreAccepted | client/state.go:113-139 | in every run of a receiver no honest move that it writes down in order is rejected, however late copies of earlier ones arrive |
| Moves.HonestShotPassesIff | client/state.go:95-112 | a shot from the recorded place and angle passes if and only if the place is at least 60 pixels from the corner |
| Moves.FifthIsPaced | client/client.go:401-404 | timestamps that advance by a fifth of the frame time keep pace |
| Moves.DiagonalPassesIff | client/state.go:128-132 | a diagonal move passes if and only if its timestamps keep pace |
| UpdateFlood.SendsAreThoseOfAccepted | client/peers.go:118-137 | sends are the recipients of the clients that accepted |
| UpdateFlood.SendsBounded | client/peers.go:118-137 | on any finite graph at most the sum of the degrees |
| UpdateFlood.FloodTerminates | client/state.go:75-82 | a run without duplication has at most one event more than that |
| UpdateFlood.StepDecreases | client/state.go:75-82 | each event decreases the clients that have not seen the update, then the copies |
| UpdateFlood.QuiescentAcceptedIffReachable | client/peers.go:118-137 | without loss, age or rejection exactly the clients reachable without passing the player accept |
| UpdateFlood.AcceptedAtMostOnce | client/state.go:75-82 | nobody accepts twice |
| UpdateFlood.PlayerIsNeverSent | client/peers.go:124-127 | over every run no copy of another player's update gets to that player |
| WorkerNetwork.SoundClockRecordsOnce | client/state.go:62-82 | a client whose clock does not go back, and none of whose deliveries falls between the two fences, writes no update down twice |
| WorkerNetwork.RunStepSimulated | client/peers.go:275-278 | as long as no client writes an update down twice, a step of the network of workers is a step of its flood, or leaves it alone |
| WorkerNetwork.Refines | client/state.go:62-148 | a run of the network in which no client writes the update down twice contains a run of its flood with the same copies, clients and sends |
| WorkerNetwork.SendsOfUpdateBounded | client/peers.go:118-137 | in such a run the workers send the update at most as often as the degrees add up to, among any other updates |
| WorkerNetwork.UpdateReachesExactly | client/peers.go:118-137 | in such a run, without loss, age or rejection, exactly the reachable clients' workers accept it |
| FailureFlood.FutureIsPowerSum | client/peers.go:288-296 | what one message can cause, in closed form |
| FailureFlood.PotentialBounded | client/peers.go:236-253 | sends plus what is still possible never exceed the initial potential |
| FailureFlood.SendsBounded | client/peers.go:280-300 | at most d + d^2 + ... + d^(ttl+1) sends for degree d |
| FailureFlood.SendsBoundedForTTL | client/peers.go:34 | the bound for the program's ttl of 3 |
| FailureFlood.FloodTerminates | client/peers.go:288-296 | no run is longer than that bound |
| FailureFlood.RemovedIffWithinHops | client/peers.go:236-300 | without loss exactly the clients within ttl + 1 hops of the detector, not counting paths over the failed client, remove it |
| FailureFlood.RemovedIffWithinFourHops | client/peers.go:34 | for the program's ttl: the clients within four hops |
| FailureFlood.FailedIsNeverTold | client/peers.go:243-252 | over every run the failed client gets no news of itself |
| Peers.PeerTable.Outgoing | client/peers.go:118-137 | each peer but the update's player gets one copy |
| Peers.PeerTable.NotifyUpdate | client/peers.go:275-278 | the update goes to the worker |
| Peers.PeerTable.RemovePeer | client/peers.go:255-269 | a known peer is forgotten and its death announced |
| Peers.PeerTable.NotifyFailure | client/peers.go:280-300 | removes the peer and tells the others with one ttl less, if any is left |
| Peers.PeerTable.HandleDisconnection | client/peers.go:236-253 | tells the server, removes the peer and starts the flood |
| Peers.PeerTable.GetMorePeers | client/peers.go:61-83 | adds and registers with exactly the new clients that can be reached, never itself |
| Peers.PeerTable.PeerWorker | client/peers.go:47-59 | asks only below the minimum, and then has exactly its old peers and the reachable clients that were named |
| Peers.PeerTable.Register | client/peers.go:302-344 | adds an unknown caller, leaves a known one alone |
| Peers.PeerTable.Heartbeat | client/clocks.go:105-114 | refreshes a known peer only |
| Peers.PeerTable.Recover | client/clocks.go:116-129 | forgets all peers and announces one death for each, with its stamp |
| RemovedPeers.RemovedPeerDisappears | client/peers.go:255-269 | the death that a table announces, if it is new and at most a second old, is accepted: the player is then neither on record nor on the screen, the peers are told, and nobody gets a kill for it |
| PeerGraph.TablesOfConnected | client/client.go:200-225 | while clients only join, those with a table are those CONNECTED |
| PeerGraph.AddedAllIs | client/peers.go:67-82 | asking adds exactly the clients that are named, other than the asking one, to its table and to no other |
| PeerGraph.RunLinked | client/peers.go:61-116 | in every such run, who knows whom and which Register calls are under way follows from what GetNodes told |
| PeerGraph.QuiescentKnowsIffTold | client/peers.go:61-116 | once no Register call is under way, two clients know each other if and only if GetNodes told one about the other |
| PeerGraph.QuiescentTablesSymmetric | client/peers.go:302-344 | and then knowing is mutual |
| PeerGraph.AskingIsAnsweredIff | server/server.go:564-591 | a client that asks is named a partner exactly when somebody else is in the game at that moment |
| PeerGraph.ToldIffAskedInTime | server/server.go:564-591 | a client is told about exactly its partner, if it asks while it has fewer than two peers and somebody else is in the game |
| PeerGraph.KnowsPartnerIff | client/peers.go:51-53 | a client ends up knowing its partner if and only if it asks in time, or the partner has it for a partner and asks in time |
| PeerGraph.EnoughPeersStay | client/peers.go:51-53 | a client that has two peers before it asks in time never asks |
| PeerGraph.PartnersKnownIff | client/peers.go:51-53 | all partners end up known if and only if every client asks in time or is told of by its partner |
| PeerGraph.EveryPlayerReachable | server/server.go:465-486 | in every joint run of server and tables in which clients only join and that holds, a player's update has a path to every player |
| PeerGraph.EveryPlayerHears | client/state.go:142-146 | and, without loss, age or rejection and if no client writes the update down twice, every player's worker passes it to the screen |
| PeerGraph.SettledStays | client/peers.go:47-59 | once no call is under way and everybody has enough peers or knows its partner, no table changes any more, however often clients ask, until somebody else joins |
| SplitGroups.LateAskingSplits | client/peers.go:51-53 | a joint run from the start, with partners that the server assigns, after which no client of one group has a path to one of the other, however the run goes on without newcomers |
| Players.Screen.RebuildIds | client/client.go:344-348 | the list is some enumeration of the players |
| Players.Screen.Accept | client/client.go:327-369 | the effect of each kind of update on players, list, bullets and kills |
| Players.Screen.DoAcceptUpdates | client/client.go:324-375 | the players after all waiting updates, the kills counted, a bullet for each shot, and the list in step with the map |
| Players.Screen.DoDraw | client/client.go:455-458 | every listed id has a player, and each player is drawn once |
| Players.RunConsistent | client/client.go:324-375 | over every run the list enumerates the players without the local one |
| Players.OrderIsStable | client/client.go:72-73 | while nobody dies the order is stable and new players come last |
| Players.ScreenShowsRecords | client/client.go:324-375 | after everything the worker passed on, the screen shows exactly the remote players on record, at their recorded positions |
| Players.ScreenShowsShots | client/client.go:364-366 | the screen gets one bullet for each accepted shot of another player, in their order |
| Players.KillsCountedOnce | client/client.go:350-362 | over every run the kills counted are as many as the nonces of the accepted deaths at the hands of the local player, however often their news arrives |

## Left out

- Moves.Player.DoLocalInput: the angle to the mouse and its cosine and sine are arguments, and the local list of bullets is not kept.
- Recording.RecordWorker.Validate: rounding and overflow of floating point; the quotients by zero are covered.
- Clients.KVStoreSetup: file-system errors, and a crash between creating and writing a file, which leaves a file that start-up panics on.
- FailureFlood.SendsBounded: duplication of messages by the network, and peer tables that change during the flood.
- FailureFlood.RemovedIffWithinHops: a single failed client and a single detector; several floods at once are not combined.
- UpdateFlood.SendsBounded: peer tables that change during the flood.
- WorkerNetwork.SendsOfUpdateBounded: updates that a client writes down twice, as a clock set back or a delivery between the two fences allows; it then passes it on again.
- StatsCount.StatsExactIff: increments that overlap; the program starts them in goroutines and does nothing against it.
- PeerGraph.EveryPlayerHears: clients that leave or are reported, peers that cannot be reached, and tables that change during the flood.
- Server.TankServer.Connect: what a second unlock does to the handler that has taken the lock in between.
- Server.TankServer.GetNodes: the status is read without the lock after it is released; here the handler is one step.
- Server.TankServer.KVGet: a client that does not answer within the timeout, for which the server returns zeros without an error.
- Server.TankServer.SyncClocks: time.Duration is unbounded here, and calls do not fail.
- Locks and deadlocks: KVGet and KVPut take two locks in opposite orders.
- Connections and peer records are values in maps that the methods replace; the program shares references to them. Player records, players, client processes and the clock are objects.
- The channel of a client process is its id, and its clock offset is a field of the process instead of a ClockManager object.
- Heartbeat timing, pings and how a failure is detected; sockets, remote calls, encodings, logging, flags and the ID file.
- Bullets after they are added, hits, bot movement, pictures and windows.
- pixel.Rect.Contains and pixel.Clamp are not part of the repository; they are the closed rectangle and the usual clamp.
