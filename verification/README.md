# Roole: a verified model of its protocols, codecs and queues

Roole is a C11 cluster runtime. This project models its decision-making code in Dafny and proves
what that code keeps: the SWIM membership protocol over whole runs, the DAG executor, the three
binary formats, the reassembly of RPC frames, the blocking queue as a concurrent protocol, and the
small dense routines around them (round robin, execution ids, event bus, JSON escaping, addresses).

`dafny verify dfyconfig.toml` checks everything.

## How the model is laid out

| files | source | form |
|---|---|---|
| `Bytes`, `Common`, `Nodes`, `Ring` | machine words, byte order, C strings, result codes, node ids and states, the ring buffer that three queues repeat | functions on byte strings; a class over an array |
| `Locks`, `Membership` | the locks of the gossip engine, `membership.c` | a class whose preconditions are the lock discipline; a class over the member array and the functions it is proved against |
| `Gossip`, `GossipEngine` | `gossip_engine.c` | one function per handler and timer; a class whose methods are proved to be those functions |
| `GossipRuns`, `Convergence`, `PingConvergence` | what every run of those steps keeps, what ACK and PING piggybacks merge to | lemmas |
| `Selection`, `PendingPings`, `Refutation`, `GossipEffects` | what each of those steps brings about: whom a scan picks, what becomes of a ping, how a suspicion is refuted, the entry and the news each message and timer leaves | lemmas |
| `GossipCodec`, `GossipWire` | `gossip_protocol.c`, the three senders | writers and readers over arrays; lemmas |
| `AddressText`, `Bootstrap`, `JoinResponse` | router list of a JOIN_RESPONSE, `config_parse_address` | the same |
| `Dag`, `DagExecutor`, `DagValidation`, `DagCatalog` | `dag_executor.c`, validation and table of `dag_catalog.c` | classes; fixpoint and cycle lemmas |
| `DagFormat`, `DagCodec`, `DagRoutines` | `dag_serialize`, `dag_deserialize` | format, theorems, routines over buffers |
| `RpcFrame`, `RpcCut`, `RpcStream`, `RpcChunks`, `RpcChannel`, `PendingContexts` | `rpc.c` | header packing, frame cutting, connections as values, when chunking matters, the receive buffer as a class, the linked list of pending requests |
| `QueueProtocol`, `QueueStranding` | `message_queue.c` | a state machine over the steps of any number of threads; the runs that lose a wake-up |
| `RoundRobin`, `PeerPool` | `peer_pool.c` | positions and windows; a class over the peer array |
| `ExecutionTracker`, `ExecutionHistory` | `execution_tracker.c` | operations on values, runs, a class over the slots; what a record tells of its history |
| `EventBus` | `event_bus.c` | a state machine for the counters; classes for slots and bus |
| `JsonEscape` | `json_escape_string` of `logger.c` | the loop over an output array; a reader for its output |

Class methods are proved against functions of the old state, or state the new contents outright; the
theorems are about those functions and about runs of them. In `QueueProtocol` the contents of the
queue are a sequence: what the critical sections do to it, append one item or take the first, is what
`Ring.RingBuffer` proves of the array with head, tail and count.

A gossip step is one handler or timer, run as a unit at one reading of the clock. A run is any
sequence of such steps at clock readings that do not decrease. Messages in a run carry named
statuses (0, 1 or 2) and at most ten updates, which is what a peer running this program sends.
The self entry of a node is overwritten by its own timer, so the theorems about order and death
are about the other members.

## What the proofs found

These are places where the code does less than its comments, documentation or names suggest. Each
is a lemma below, and beside each failure stands the lemma that says exactly when it occurs.

- Order of (incarnation, status): over whole handlers it falls exactly at an ACK that clears a suspicion
  of its sender and brings nothing newer, and at a join that carries too low an incarnation for the
  status it clears (`StepLowersPairIff`, `RunKeepsOrder`). Interleaving between lock acquisitions adds
  more: `check_ack_timeouts` and the handlers of SUSPECT, PING, ACK and ALIVE read an entry under one lock
  and write its status under the next, which undoes a higher status recorded in between at the same
  incarnation (`TornWriteLowersIff`), and the ACK handler reads the incarnation of a suspected sender after
  it has released the lock, so it revives whatever it finds then (`LateReadRevives`). `PairDropsIff` lists
  every critical section that lowers a pair; the refresh of the self entry is one.
- An ALIVE message writes ALIVE for every update it carries, whatever status the update has. Gossip
  rounds send their view in ALIVE messages, so news of a death at a higher incarnation revives the
  dead (`DeathNewsCanRevive`, `AliveMessageKeepsDeadIff`).
- ACK piggybacks converge. PING piggybacks need not, although the comment at `gossip_engine.c:482` calls
  the two handlers the same: a revival through PING adds one to the incarnation. Without a revival PING
  merges like ACK (`PingMergesLikeAck`); in general every order and repetition ends in the newest claim
  exactly when no death that the entry can come to hold is revived to the newest incarnation or beyond
  (`PingConvergesIff`), and all of them agree in one case more, in which they overshoot it alike
  (`PingAgreesIff`).
- `check_suspect_timeouts` reads the clock before it takes the lock. If `last_seen_ms` is set in
  between, the unsigned difference wraps and a member suspected a moment ago is declared dead
  (`StaleReadKills`, `StaleClockKillsIff`).
- The comment at `gossip_protocol.c:44` counts four bytes of padding in a 40-byte record; there are
  none. The truncation branch stores its count at byte 16 instead of byte 14
  (`TruncationIsFaithfulIff`); no sender reaches it (`SentMessagesArrive`).
- A JOIN_RESPONSE lists up to 16 routers but its datagram has room for 10 (`ReplyArrives`).
  `node_bootstrap.c:182` uses a record size of 44 where records have 40 bytes; with no updates in
  the reply this has no effect.
- `dag.h` announces that validation checks for cycles; it does not, and an accepted DAG can be one
  that never runs a step (`AcceptsADeadlock`, `AcceptedCompletesIffAcyclic`).
- A step with a configuration length and no configuration is counted in the size but not written
  (`WrittenIsRequired`).
- A bad frame length discards whatever has arrived so far and keeps the connection open, so for a
  stream in which anything follows one, chunking matters (`ChunkingMattersIff`). A hang-up reported
  together with data discards complete requests (`CompleteFramesLostIff`). Waiting is edge-triggered and
  a wake-up fills the buffer once, so complete frames can stay in the socket until the next event
  (`WakeUpHandsOutAllIff`, `NextWakeUpCatchesUp`). Status 0xFF of an RPC response arrives as 0x0F
  (`RpcFrame.RoundTrip`).
- POSIX allows a timed wait to consume a signal and still time out. `message_queue_pop` then returns
  without looking at the queue. An item can be left uncovered exactly when a producer, a consumer with a
  timeout and a third thread that waits in a pop share the queue (`UncoveredIff`), and stranded for good
  exactly when that third thread may pop without a timeout (`StrandedIff`). The only caller,
  `node_executor.c:48`, pops with a timeout of a second, and then the sleeper's own next pop takes the
  oldest item (`TimedConsumersRecover`).
- A suspected node answers with one incarnation above its own. A peer can hold it at more than that, since a
  revival through PING or a join adds one; such a peer ignores the refutation (`SuspicionIsRefutedIff`),
  until the node has been suspected often enough (`IncarnationCountsSuspicions`).
- An ACK timeout for a target that the table does not know queues a suspicion at incarnation 0
  (`AckTimeoutsExactly`). What a PING, an ACK or a DEAD message changes in a known entry is not passed on,
  unlike what a SUSPECT or an ALIVE message changes (`RelayedIffAccepted`).
- A JSON message that does not fit loses an escaped character from its middle, not only its end,
  under an exact condition (`ReaderSeesPrefixIff`).

## Model

| member | source | states |
|---|---|---|
| Membership.ClusterView.Add | src/cluster/membership.c:56-107 | the table becomes the specified insert-or-update; ERR_FULL exactly when a new id meets a full table; the lock is given back |
| Membership.ClusterView.UpdateStatus | src/cluster/membership.c:109-142 | only the slot of the id changes, only for an incarnation that is not lower, with the last_seen rule; NOTFOUND exactly for an unknown id |
| Membership.ClusterView.Remove | src/cluster/membership.c:144-164 | the first slot with the id is cut out and the rest keeps its order |
| Membership.ClusterView.Get | src/cluster/membership.c:166-179 | the read lock is held afterwards exactly when the member was found |
| Membership.AddedRefinesMap | src/cluster/membership.c:56-107 | on a table of distinct ids, add is insert or update of one key of a bounded map and keeps ids distinct |
| Membership.StatusSetRefinesMap | src/cluster/membership.c:109-142 | update_status is an update of one existing key and adds or drops none |
| Membership.RemovedRefinesMap | src/cluster/membership.c:144-164 | remove is deletion of one key |
| Membership.IncarnationDropsIff | src/cluster/membership.c:65-70 | one critical section lowers an incarnation exactly when an ALIVE add meets a DEAD entry that is ahead by more than one, or the self refresh meets a higher one |
| Membership.PairDropsIff | src/cluster/membership.c:64-136 | exactly which critical sections lower the pair (incarnation, status), the self refresh included |
| Membership.AnyInterleavingKeepsIncarnations | src/cluster/membership.c:56-142 | under any interleaving of critical sections the table stays a bounded map that loses no id, and without resurrections and refreshes of that id no incarnation drops |
| Membership.TornWriteLowersIff | src/cluster/gossip_engine.c:181-197 | a handler sees an entry under one lock and writes a status that would not lower it under the next: whatever section runs in between, the write lowers the entry exactly when that section records a higher status at the incarnation written |
| Membership.LateReadRevives | src/cluster/gossip_engine.c:470-480 | whatever section runs between the ACK handler's two reads of a suspected sender, the entry becomes ALIVE at the incarnation of the second, and falls exactly when the section left it other than ALIVE |
| GossipEngine.Engine.QueueUpdate | src/cluster/gossip_engine.c:95-109 | appends to the update queue unless it is full, and changes nothing else |
| GossipEngine.Engine.TakeUpdates | src/cluster/gossip_engine.c:111-124 | removes the oldest updates, at most max, in order |
| GossipEngine.Engine.AddPendingAck | src/cluster/gossip_engine.c:130-146 | the first idle slot records the ping; a full table is unchanged |
| GossipEngine.Engine.RemovePendingAck | src/cluster/gossip_engine.c:148-162 | clears the first active slot of the target and no other |
| GossipEngine.Engine.HandlePing | src/cluster/gossip_engine.c:290-454 | the state becomes the PING step; the ACK carries the sequence number taken and the anti-entropy piggyback of the new view; no lock is left held |
| GossipEngine.Engine.HandleAck | src/cluster/gossip_engine.c:456-523 | the state becomes the ACK step, including the revival of a suspected sender; no lock is left held |
| GossipEngine.Engine.HandleSuspect | src/cluster/gossip_engine.c:525-580 | the state becomes the SUSPECT step, including the refutation of a suspicion of this node |
| GossipEngine.Engine.HandleAlive | src/cluster/gossip_engine.c:582-613 | the state becomes the ALIVE step |
| GossipEngine.Engine.HandleDead | src/cluster/gossip_engine.c:615-654 | the state becomes the DEAD step |
| GossipEngine.Engine.HandleJoin | src/cluster/gossip_engine.c:656-693 | the first update about the sender is admitted with the source address and queued |
| GossipEngine.Engine.HandleWorkerJoin | src/cluster/gossip_engine.c:703-973 | the state becomes the WORKER_JOIN step; the burst goes to the reachable members other than router and worker; the reply lists the first sixteen ALIVE routers |
| GossipEngine.Engine.Dispatch | src/cluster/gossip_engine.c:979-1032 | every message type leads to its step, unknown types and own messages to none |
| GossipEngine.Engine.SendPing | src/cluster/gossip_engine.c:1181-1264 | queue, sequence number and pending table after a ping, and the message built, for known and unknown targets and failed sends |
| GossipEngine.Engine.CheckAckTimeouts | src/cluster/gossip_engine.c:164-212 | every slot is checked in order at one clock reading; view lock taken inside the pending lock and given back |
| GossipEngine.Engine.CheckSuspectTimeouts | src/cluster/gossip_engine.c:1266-1325 | every slot is checked in order although the lock is given up and taken again on each death |
| GossipEngine.Engine.GossipToRandomPeers | src/cluster/gossip_engine.c:1331-1429 | min(fanout, reachable) distinct reachable peers are drawn whatever the random numbers are, one message each with consecutive sequence numbers |
| GossipEngine.Engine.RefreshSelf | src/cluster/gossip_engine.c:1431-1439 | only the self entry changes: clock, own incarnation, ALIVE |
| GossipEngine.Engine.AnnounceJoin | src/cluster/gossip_engine.c:1620-1656 | the node admits itself and queues its announcement five times |
| Locks.LockTable.Acquire | src/cluster/gossip_engine.c:167-211 | a lock can only be taken when all locks held rank strictly below it, so no path takes the view lock twice or against the order |
| GossipRuns.StepMoves | src/cluster/gossip_engine.c:290-1032 | what any step may do to any entry: the view stays sound, no entry disappears, last_seen is kept or set to now, (incarnation, status) does not fall outside the named exceptions |
| GossipRuns.ViewStaysBoundedMap | src/cluster/gossip_engine.c:979-1032 | in every reachable state ids are distinct, the map has as many ids as slots and at most capacity, and no later state has lost an id |
| GossipRuns.StepLowersPairIff | src/cluster/gossip_engine.c:290-1032 | a step lowers (incarnation, status) of another member exactly when it is an ACK of that suspected member with nothing newer about it, or a JOIN of it or a WORKER_JOIN about it with an incarnation below that of a DEAD entry or equal to that of a SUSPECT one |
| GossipRuns.RunKeepsOrder | src/cluster/gossip_engine.c:290-1032 | over any stretch of a run, (incarnation, status) of another member does not fall unless one of exactly those steps lies in between |
| GossipRuns.StepLowersIncarnationIff | src/cluster/membership.c:65-70 | a step lowers an incarnation exactly when a join meets a DEAD entry that is ahead of the joining record by more than one |
| GossipRuns.WorkerJoinMoves | src/cluster/gossip_engine.c:717-764 | a WORKER_JOIN that describes its own sender never lowers the sender's entry |
| GossipRuns.DeadStaysDead | src/cluster/gossip_engine.c:338-402 | once DEAD at incarnation i, a member stays DEAD through any stretch of a run whose messages write it, other than as DEAD, with at most i |
| GossipRuns.AliveMessageKeepsDeadIff | src/cluster/gossip_engine.c:582-613 | an ALIVE message leaves a DEAD entry untouched if none of its updates for it has a higher incarnation and makes it ALIVE otherwise |
| GossipRuns.DeathNewsCanRevive | src/cluster/gossip_engine.c:598-611 | a DEAD update inside an ALIVE message can turn a DEAD entry ALIVE |
| GossipRuns.PendingHistory | src/cluster/gossip_engine.c:130-162 | an active pending slot was filled by an earlier ping and has been unmatched ever since |
| GossipRuns.ClockAhead | src/cluster/membership.c:118-127 | in a run no last_seen lies ahead of the clock, so the unsigned differences of the timers do not wrap |
| GossipRuns.LocalFailureTiming | src/cluster/gossip_engine.c:1266-1325 | a member that goes from ALIVE to DEAD through timers alone had a ping unmatched for more than the ACK timeout and was then SUSPECT without a break for more than the dead timeout |
| GossipRuns.StaleClockKillsIff | src/cluster/gossip_engine.c:1266-1300 | for any two 64-bit clock values, exactly when the check declares a suspected member dead; with a timeout and a lag below 2^32, exactly when the reading is behind last_seen or the timeout has passed |
| GossipRuns.StaleReadKills | src/cluster/gossip_engine.c:1266-1300 | the timer reads the clock, an ALIVE member is then suspected at any later reading less than 2^32 ms away, and the check declares it dead |
| PendingPings.AnswerClearsOne | src/cluster/gossip_engine.c:148-162 | an answer clears the first active slot of its sender and no other slot; the waiting pings of that target drop by one and those of every other target stay |
| PendingPings.SendRecordsOne | src/cluster/gossip_engine.c:130-146 | a sent ping fills the first idle slot and no other; the waiting pings of its target grow by one unless every slot is taken |
| PendingPings.AckTimeoutsExactly | src/cluster/gossip_engine.c:164-212 | an entry becomes SUSPECT if and only if it was ALIVE and a ping of it is overdue; every overdue slot becomes idle and no other slot changes; the suspicions are queued in slot order while there is room; nothing else changes |
| PendingPings.SuspicionTold | src/cluster/gossip_engine.c:191-205 | each member that the timer suspects is told of once, at the incarnation it has |
| PendingPings.SuspectTimeoutsExactly | src/cluster/gossip_engine.c:1266-1325 | a member becomes DEAD if and only if it was SUSPECT and not seen for longer than the dead timeout; the deaths are queued in table order while there is room; nothing else changes |
| PendingPings.PingsAccounted | src/cluster/gossip_engine.c:130-212 | in every run, recorded pings of a target are waiting, answered or given up |
| PendingPings.AnsweredIsNotSuspected | src/cluster/gossip_engine.c:456-466 | a member all of whose recorded pings were answered is left alone by the ACK timer |
| PendingPings.SilenceIsDetected | src/cluster/gossip_engine.c:164-212 | the converse of the failure timing: an ALIVE member with an overdue ping is SUSPECT at once, and left alone for longer than the dead timeout it is DEAD at the next check |
| Refutation.SuspicionRaises | src/cluster/gossip_engine.c:537-556 | a suspicion of this node raises its incarnation by one and queues three copies of its record at the new incarnation, beyond the one suspected when that was its own; nothing else changes |
| Refutation.RefutationQueued | src/cluster/gossip_engine.c:537-556 | with room for one update the refutation is on the queue, behind what was there |
| Refutation.IncarnationCountsSuspicions | src/cluster/gossip_engine.c:525-580 | over any stretch of a run a node's incarnation grows by the number of suspicions of it that it received, and nothing else moves it |
| Refutation.RefutationBelievedIff | src/cluster/gossip_engine.c:582-613 | a peer that holds a member SUSPECT takes it for ALIVE on a PING, ACK or ALIVE update exactly when that is at a later incarnation |
| Refutation.SuspicionIsRefutedIff | src/cluster/gossip_engine.c:537-611 | what a suspected node queues makes a peer believe in it again exactly when the peer's incarnation of it is not beyond the node's own |
| Selection.RoutersPicked | src/cluster/gossip_engine.c:920-937 | an ALIVE router of the table is listed, in table order, exactly when fewer than sixteen precede it |
| Selection.ReachablePicked | src/cluster/gossip_engine.c:1335-1352 | bursts, rounds and piggybacks reach all members but the dead and those left out, SUSPECT ones included, in table order |
| Selection.PiggybackPicked | src/cluster/gossip_engine.c:405-446 | the piggyback describes, field by field and in order, each member among the first slots but for this node and the dead |
| Selection.RoundSize | src/cluster/gossip_engine.c:1356-1365 | a round goes to as many peers as the fanout asks for, or to all there are, up to 512 |
| GossipEffects.DiscoveredAsDescribed | src/cluster/gossip_engine.c:310-336 | a member first told of in a PING or ACK is admitted with every field as described, while there is room |
| GossipEffects.NewsTravels | src/cluster/gossip_engine.c:310-448 | what one node's piggyback tells of a member is what another node then knows of it |
| GossipEffects.RejoinTakesRecord | src/cluster/gossip_engine.c:342-370 | a dead member that a PING tells of as ALIVE at a later incarnation is admitted with its new address, one incarnation beyond |
| GossipEffects.NewerIsTaken | src/cluster/gossip_engine.c:373-402 | other PING and ACK updates about a known member are taken exactly when newer; the address stays, and last_seen moves only to ALIVE or from ALIVE to SUSPECT |
| GossipEffects.RelayedIffAccepted | src/cluster/gossip_engine.c:290-654 | news about others is passed on exactly when it is a discovery by PING or a SUSPECT or ALIVE message changed an entry by it |
| GossipEffects.SuspectMessageDoubtsIff | src/cluster/gossip_engine.c:558-578 | a SUSPECT message makes another member SUSPECT exactly when it was ALIVE and a suspicion of it is not older than the entry |
| GossipEffects.AliveMessageLiftsIff | src/cluster/gossip_engine.c:582-613 | an ALIVE message makes a member ALIVE, at the newest incarnation told, exactly when one of its updates about it is newer |
| GossipEffects.DeadMessageKillsIff | src/cluster/gossip_engine.c:615-654 | a DEAD message kills a member, at the newest incarnation told, exactly when one of its updates about it is not older than the entry |
| GossipEffects.LeaveKillsIff | src/cluster/gossip_engine.c:1018-1022 | a LEAVE kills its sender exactly when its sequence number is not below the entry's incarnation |
| GossipEffects.UnknownStaysUnknown | src/cluster/gossip_engine.c:525-654 | SUSPECT, ALIVE and DEAD messages add nobody to the table |
| GossipEffects.JoinAdmitsSender | src/cluster/gossip_engine.c:656-693 | a JOIN admits its sender with its first own update and the source address, queues that update, and touches nothing else |
| GossipEffects.WorkerJoinAdmits | src/cluster/gossip_engine.c:703-973 | a WORKER_JOIN at a router admits the worker with the source address, one incarnation beyond a SUSPECT or DEAD sender, queues five announcements or ten, and takes a sequence number per burst message and one for the reply |
| GossipEffects.OtherWorkerJoins | src/cluster/gossip_engine.c:703-716 | a WORKER_JOIN without updates, or at a node that is no router, changes nothing but a router's sequence number |
| GossipEffects.RefreshWritesSelf | src/cluster/gossip_engine.c:1431-1439 | the refresh writes clock, incarnation and ALIVE into the node's own entry and nothing else |
| GossipEffects.AnnouncementQueued | src/cluster/gossip_engine.c:1620-1656 | the announcement admits the node to its own table and queues its record five times |
| GossipEffects.PingCarriesQueue | src/cluster/gossip_engine.c:1181-1264 | a ping carries the oldest queued updates that fit and leaves the rest queued, or the piggyback when none is queued; none is lost, copied or overtaken |
| GossipEffects.UnknownIsNotPinged | src/cluster/gossip_engine.c:1181-1190 | a ping of an unknown target changes nothing |
| GossipEffects.RoundMessages | src/cluster/gossip_engine.c:1380-1421 | the messages of a round carry the piggyback and take the next sequence numbers, one each |
| GossipEffects.NumbersCountDatagrams | src/cluster/gossip_engine.c:405-1421 | over any stretch of a run the sequence number grows by the number of datagrams sent |
| Convergence.MergeIsJoin | src/cluster/gossip_engine.c:483-522 | merging ACK updates leaves, for each id, the newest claim among what was known and what arrived, and exactly the union of the ids |
| Convergence.AntiEntropyConverges | src/cluster/gossip_engine.c:483-522 | nodes that start from and merge the same claims in any order and multiplicity agree on status and incarnation of every id, with the maximal incarnation |
| Convergence.PingMergesLikeAckIff | src/cluster/gossip_engine.c:338-402 | a PING merges an update like an ACK exactly when the update does not revive a dead member |
| PingConvergence.PingMergeIsFold | src/cluster/gossip_engine.c:338-402 | merging by PING keeps the union of the ids and folds the claims about each id in the order they arrive |
| PingConvergence.PingMergesLikeAck | src/cluster/gossip_engine.c:338-402 | when no death about an id has a later ALIVE claim, PING leaves for it what ACK leaves, in every order and multiplicity |
| PingConvergence.PingConvergesIff | src/cluster/gossip_engine.c:338-402 | every order and repetition of the claims ends in the newest one exactly when no death that the entry can come to hold is revived to the newest incarnation or beyond |
| PingConvergence.PingAgreesIff | src/cluster/gossip_engine.c:338-402 | all orders and repetitions of the claims end the same exactly when they end in the newest one, or a dead entry meets a newest claim that is ALIVE with only deaths in between |
| GossipCodec.Serialize | src/cluster/gossip_protocol.c:134-176 | what is written for every size, including the misplaced count on truncation and where it lands when no update fits; -1 below 16 bytes; nothing else changes |
| GossipCodec.Deserialize | src/cluster/gossip_protocol.c:182-232 | the message decoded from any bytes, None for short input or another version, and the num_updates field left behind |
| GossipCodec.SerializedSize | src/cluster/gossip_protocol.c:319-324 | the computed size is what serialization into a 1400-byte payload writes, and nothing is cut off |
| GossipCodec.CutDecodes | src/cluster/gossip_protocol.c:182-232 | the first L bytes of a message, L at least 16, decode to the message with its first min(n, (L-16)/40) updates |
| GossipCodec.RoundTrip | src/cluster/gossip_protocol.c:50-232 | decoding an encoding gives the message back, every field and address intact |
| GossipCodec.FieldsOf | src/cluster/gossip_protocol.c:50-84 | the fields of a member update by offset: id at 0, type 2, status 3, address 4, ports 20 and 22, incarnation 24, timestamp 32 |
| GossipCodec.HeaderRead | src/cluster/gossip_protocol.c:144-156 | the fields of the header by offset: version 0, type 1, flags 2, sender 4, sequence number 6, count 14 |
| GossipCodec.TruncationIsFaithfulIff | src/cluster/gossip_protocol.c:162-167 | a truncated datagram decodes to a prefix exactly when nothing was cut, nothing fitted, or the first node id's high byte equals the stray count |
| GossipWire.StepKeepsAddresses | src/cluster/gossip_engine.c:290-1656 | every step keeps every address in view and queue a C string of at most 15 bytes |
| GossipWire.DecodedIsSendable | src/cluster/gossip_protocol.c:92-128 | whatever decodes can be sent again unchanged |
| GossipWire.SentMessagesArrive | src/cluster/gossip_engine.c:405-448 | every PING, ACK and gossip message has at most ten updates, takes 16 + 40n bytes within 1400 and decodes to itself |
| AddressText.ParseAddress | src/core/config.c:289-305 | the in-place cut computes the specified pair for every C string, with and without a colon |
| AddressText.ParsedOfPrintedIff | src/core/config.c:289-305 | parsing a printed "ip:port" gives both parts back exactly when the ip holds no colon |
| AddressText.AtoiOfDecimal | src/core/config.c:299 | atoi inverts the decimal print of every number |
| Bootstrap.Serialize | src/cluster/gossip_protocol.c:238-273 | what is written for every buffer size, with the count of the routers that fitted |
| Bootstrap.Deserialize | src/cluster/gossip_protocol.c:275-313 | the routers decoded from any bytes and the num_routers field left behind |
| Bootstrap.ResponseDecodes | src/cluster/gossip_protocol.c:238-313 | through a buffer of any positive size exactly the first routers that fit come back |
| Bootstrap.RouterLayout | src/cluster/gossip_protocol.c:238-273 | the fields of a router record by offset: id at 0, gossip address 2, data address 66 |
| JoinResponse.Pipeline | src/cluster/gossip_engine.c:920-937 | print, serialize into any positive size, decode, parse: the first min(n, (size-1)/130) routers with ids, addresses and ports |
| JoinResponse.ReplyArrives | src/cluster/gossip_engine.c:946-959 | the complete reply decodes as a JOIN_RESPONSE without updates; its peers are the ALIVE routers of the table in table order, each one that has fewer than ten before it |
| DagExecutor.ExecutionContext.StepDependenciesMet | src/dag/dag_executor.c:16-37 | true exactly when every dependency resolves, through the first step with its id, to a completed step |
| DagExecutor.ExecutionContext.Execute | src/dag/dag_executor.c:68-132 | steps run once each and after their dependencies; OK exactly when all ran; when bodies succeed, OK exactly for resolvable acyclic graphs and otherwise the least fixpoint ran; at most as many passes as steps |
| DagExecutor.ExecutionContext.Pass | src/dag/dag_executor.c:85-115 | a pass that completes nothing and fails nothing proves the completed set closed |
| DagExecutor.CompletableIsLeastFixpoint | src/dag/dag_executor.c:82-123 | the steps completable in rounds form the least fixpoint of "all resolved dependencies completed" |
| DagExecutor.StuckContainsCycle | src/dag/dag_executor.c:117-123 | when all dependencies resolve, the steps that cannot complete contain an actual cycle |
| DagExecutor.CompletableIffAcyclic | src/dag/dag_executor.c:68-132 | everything can complete exactly when all dependencies resolve and no cycle exists |
| DagValidation.Validate | src/dag/dag_catalog.c:559-594 | accepts exactly 1 to 128 steps whose dependencies all exist |
| DagValidation.AcceptedCompletesIffAcyclic | src/dag/dag_catalog.c:591 | an accepted DAG can run to the end exactly when it is acyclic, and if not, a cycle lies among its stuck steps |
| DagValidation.AcceptsADeadlock | src/dag/dag_catalog.c:591 | two steps that wait for each other are accepted and neither ever runs |
| DagValidation.ShadowedStepIsNeverAwaited | src/dag/dag_executor.c:22-28 | no step waits for one whose id an earlier step carries |
| DagCatalog.Catalog.Add | src/dag/dag_catalog.c:366-421 | insert of a new key; ERR_EXISTS and ERR_FULL exactly when they apply |
| DagCatalog.Catalog.Update | src/dag/dag_catalog.c:423-471 | replaces the value of an existing key with a fresh update time, NOTFOUND otherwise |
| DagCatalog.Catalog.Remove | src/dag/dag_catalog.c:473-516 | deletes exactly the key |
| DagCatalog.Catalog.List | src/dag/dag_catalog.c:540-553 | distinct known ids, at most max, all of them when max allows |
| DagRoutines.Serialize | src/dag/dag_catalog.c:75-184 | writes the encoding at the start of the buffer and nothing behind it, or nothing at all when the computed size does not fit |
| DagRoutines.Deserialize | src/dag/dag_catalog.c:186-339 | accepts exactly what the format reader accepts and returns the same DAG |
| DagCodec.RoundTrip | src/dag/dag_catalog.c:75-339 | decoding an encoding, whatever follows it, gives the DAG back up to its timestamps and ends where the encoding ends |
| DagCodec.DagLayout | src/dag/dag_catalog.c:105-127 | where id, version, name, step count and each step stand in the bytes of a DAG |
| DagCodec.StepLayout | src/dag/dag_catalog.c:128-178 | where each field of a step stands in its bytes |
| DagCodec.DagCut | src/dag/dag_catalog.c:186-339 | any buffer that stops before the last byte read is rejected, any longer one is read the same way |
| DagCodec.PrefixRejected | src/dag/dag_catalog.c:186-339 | no proper prefix of an encoding decodes |
| DagCodec.Canonical | src/dag/dag_catalog.c:75-339 | re-serializing what was accepted, when names hold no NUL, gives back exactly the bytes consumed |
| DagCodec.WrittenIsRequired | src/dag/dag_catalog.c:81-101 | the bytes written never exceed the computed size and equal it exactly when every configuration length has its configuration |
| RpcFrame.Pack | src/core/rpc.c:143-167 | writes exactly the frame and returns its length |
| RpcFrame.PackedWords | src/core/rpc.c:143-167 | the fields of the frame by offset: length at 0, request id 4, node id 8 in host order, type and status 10, function 11, payload 12 |
| RpcFrame.RoundTrip | src/core/rpc.c:143-202 | unpacking a packed frame restores every field, type and status modulo 16, and the payload |
| RpcCut.SplitInTwo | src/core/rpc.c:435-531 | cutting a, then what is left together with b, is cutting both at once |
| RpcCut.PrefixIsCut | src/core/rpc.c:449-531 | any start of a stream of valid frames is cut into exactly the frames that lie wholly inside it |
| RpcStream.ChunkingInvariance | src/core/rpc.c:641-681 | however a stream of frames that fit is divided, exactly the complete frames are handed out, in order and once, the residue is the rest, and the connection stays open |
| RpcChunks.ChunkingMattersIff | src/core/rpc.c:451-455 | for a stream of any length, all divisions that pass the buffer agree exactly when no invalid header comes up, nothing follows it, or no division passes the buffer |
| RpcChunks.FramesThenTailDeliverable | src/core/rpc.c:647-680 | a stream passes the buffer when its leading frames fit one by one and what follows them fits |
| RpcChunks.EndlessIsUndeliverable | src/core/rpc.c:647-680 | a header of zeros followed by enough bytes 0xFF has no frame in front and passes the buffer in no division |
| RpcStream.DataClosesIffOversize | src/core/rpc.c:677-680 | the buffer-full close fires exactly for a full buffer whose first frame announces more than the buffer holds |
| RpcStream.WakeUpClosesIff | src/core/rpc.c:626-690 | any wake-up closes an open connection exactly at a hang-up, at an end of stream that there was room to see, or when the buffer is full with a frame that could never fit |
| RpcStream.CompleteFramesLostIff | src/core/rpc.c:636-675 | complete frames are lost exactly when a hang-up is reported with them or the end of the stream is read behind them |
| RpcStream.WakeUpHandsOutAllIff | src/core/rpc.c:641-675 | one wake-up hands out every complete frame that has arrived exactly when what stays in the socket completes none, in particular when everything fits the buffer |
| RpcStream.NextWakeUpCatchesUp | src/core/rpc.c:641-675 | a further event for what was left, if it fits, brings buffer and handlers to where the whole input would have |
| RpcStream.PackedCallsArrive | src/core/rpc.c:143-531 | packed messages reach the handlers one for one with all fields and payloads, however the stream is divided |
| RpcChannel.Channel.ProcessBufferedData | src/core/rpc.c:435-531 | the frames of the cut go out in order and its residue stands at the front of the buffer |
| RpcChannel.Channel.ReadAvailable | src/core/rpc.c:643-670 | takes what the socket has and the buffer holds, and reports the end of the stream exactly when room was left to see it |
| RpcChannel.Channel.OnEvent | src/core/rpc.c:626-690 | one wake-up of a connection is the specified step |
| PendingContexts.PendingList.Add | src/core/rpc.c:503-505 | the request is put in front of the list |
| PendingContexts.PendingList.Remove | src/core/rpc.c:382-391 | the request is taken out and the others keep their order; an unknown one changes nothing |
| Ring.RingBuffer.TryPush | src/node/message_queue.c:82-85 | appends, or refuses exactly when full, across wrap-around |
| Ring.RingBuffer.Take | src/node/message_queue.c:133-136 | the read, advance and decrement remove exactly the oldest element, across wrap-around |
| Ring.RingBuffer.PopBatch | src/cluster/gossip_engine.c:111-124 | removes the oldest elements in order, at most max |
| Ring.RingBuffer.TryPop | src/core/event_bus.c:145-147 | removes the oldest element, or reports exactly the empty ring |
| Ring.NothingLostOrReordered | src/cluster/gossip_engine.c:95-124 | after any mixture of pushes and batch pops, accepted is removed followed by what is left |
| QueueProtocol.RunInv | src/node/message_queue.c:71-145 | in every reachable state of any number of threads, swallowed signals included: capacity, conservation, mutual exclusion, the bound for producers, every thread where its role can take it, and an empty queue when all who could push sleep in a pop |
| QueueProtocol.NoLostWakeup | src/node/message_queue.c:71-145 | with the mutex free and a consumer blocked, queued items are at most the producers before their signal plus the woken consumers, in every run without a swallowed signal or without three rivals for the queue; and the same for producers and free slots in every run |
| QueueProtocol.NobodySleepsInVain | src/node/message_queue.c:71-145 | at rest, a blocked consumer means an empty queue in those runs, and a blocked producer a full one in every run |
| QueueProtocol.Conservation | src/node/message_queue.c:82-136 | items come out in the order they went in, once each |
| QueueStranding.UncoveredIff | src/node/message_queue.c:107-124 | no run of given threads in given roles leaves an item uncovered exactly when the queue has no slot or no producer, timed consumer and other waiting consumer share it |
| QueueStranding.StrandedIff | src/node/message_queue.c:118-124 | no such run strands an item beside a consumer without a timeout exactly when the queue has no slot or that other consumer never pops without one |
| QueueStranding.TimedConsumersRecover | src/node/node_executor.c:42-57 | when all waits have timeouts, a sleeper beside an item can expire in every run, and its next pop takes the oldest item |
| RoundRobin.RoundRobinIsFair | src/node/peer_pool.c:294-324 | from any counter, as many selections as there are eligible peers return each exactly once |
| RoundRobin.WindowSize | src/node/peer_pool.c:305-319 | every full round of positions holds each eligible peer once, wherever it starts |
| PeerPool.Pool.SelectRoundRobin | src/node/peer_pool.c:296-324 | returns the peer at the first eligible position and moves the counter behind it; 0 after a full round without one |
| PeerPool.Pool.Add | src/node/peer_pool.c:60-110 | a known id is left alone, a new one appended with its defaults, ERR_FULL exactly for a new id in a full pool |
| PeerPool.Pool.Remove | src/node/peer_pool.c:112-141 | the peer is cut out, the others keep their order, and the id is gone |
| ExecutionTracker.Tracker.Add | src/node/execution_tracker.c:49-98 | the next id and the first free slot, or 0 for a bad message or a full table |
| ExecutionTracker.Tracker.UpdateStatus | src/node/execution_tracker.c:100-132 | only the record of the id changes, with the timestamp its transition calls for |
| ExecutionTracker.Tracker.Get | src/node/execution_tracker.c:134-148 | the slot of the active record with the id, if any |
| ExecutionTracker.Tracker.Drop | src/node/execution_tracker.c:177-194 | only the active record with the id becomes inactive; INVALID for id 0, NOTFOUND exactly for an unknown id |
| ExecutionTracker.Tracker.CleanupCompleted | src/node/execution_tracker.c:196-228 | exactly the expired records become inactive, and their number is returned |
| ExecutionTracker.IdsAreFaithful | src/node/execution_tracker.c:49-98 | in every run ids are handed out without repetition, at most one active record has an id, and it holds the job the id was issued for |
| ExecutionTracker.LookupIsFaithful | src/node/execution_tracker.c:134-148 | a lookup yields the job of the id or nothing, however slots were reused |
| ExecutionTracker.GoneStaysGone | src/node/execution_tracker.c:177-194 | an execution that left the table never comes back |
| ExecutionTracker.CleanupRemovesIff | src/node/execution_tracker.c:205-219 | clean-up removes an execution exactly when it is finished and its completion lies more than five minutes back |
| ExecutionTracker.SubmissionAcceptedIff | src/node/execution_tracker.c:49-74 | a submission changes the table exactly when its message has 1 to 4096 bytes and some slot is free |
| ExecutionTracker.CleanupCounts | src/node/execution_tracker.c:196-228 | the number a clean-up returns is the number of executions that left the table |
| ExecutionHistory.RecordTellsHistory | src/node/execution_tracker.c:49-132 | in every run, a record that is still there holds the job, submission time and retries of its submission, its last status, when it last went from Pending to Running and when it was last set to Completed or Failed |
| ExecutionHistory.FinishedIsCollectedIff | src/node/execution_tracker.c:110-228 | an execution set to Completed or Failed at a time after 0 and then left alone is in the table until a clean-up runs more than five minutes later, and gone from then on |
| ExecutionHistory.UnfinishedIsKept | src/node/execution_tracker.c:205-219 | an execution that is not Completed or Failed is never cleaned away |
| ExecutionHistory.RemoveTakesRecord | src/node/execution_tracker.c:177-194 | a removal takes exactly the execution of its id off the table, for good |
| EventBus.Conservation | src/core/event_bus.c:349-381 | with any number of publishers interleaving, when none is inside a call published = dropped + queued + popped + delivered at once, and events leave in the order they were queued |
| EventBus.EventBus.Publish | src/core/event_bus.c:349-368 | queued and counted, or dropped and counted exactly when the queue is full |
| EventBus.EventBus.DispatchNext | src/core/event_bus.c:180-197 | the oldest event goes to the active handlers of its type in slot order |
| EventBus.EventBus.PublishSync | src/core/event_bus.c:370-381 | delivered at once, past the queue |
| EventBus.Bucket.Subscribe | src/core/event_bus.c:282-315 | one more registration, the others in their order; refused exactly when all slots are taken |
| EventBus.Bucket.Unsubscribe | src/core/event_bus.c:317-343 | one registration less, refused exactly when there is none |
| EventBus.CalledInSlotOrder | src/core/event_bus.c:180-197 | a registration is called behind exactly those in the slots before it |
| EventBus.CalledOncePerSlot | src/core/event_bus.c:180-197 | each handler is called once per registration |
| JsonEscape.EscapeString | src/core/logger.c:91-132 | the loop writes the specified bounded escape and a terminating NUL inside the output |
| JsonEscape.EscapesAreJson | src/core/logger.c:98-125 | quote, backslash, newline, return and tab become their two-character escapes, other printable characters stay, the rest is dropped |
| JsonEscape.OutputIsWellEscaped | src/core/logger.c:91-132 | at any size the output reads back as a JSON string body: nothing is left unescaped and no escape is cut in two |
| JsonEscape.CompleteIff | src/core/logger.c:94-130 | nothing is lost exactly when the complete escaped text fits |
| JsonEscape.LoggedMessagesSurvive | src/core/logger.c:308-313 | at the logger's sizes the reader gets exactly the printable characters, newlines, returns and tabs of the message |
| JsonEscape.ReaderSeesPrefixIff | src/core/logger.c:98-125 | at other sizes the reader gets a prefix exactly when no escape is left out before a plain character |
| Bytes.ValueOfBigEndian | src/cluster/gossip_protocol.c:18-38 | network byte order and back is the identity on values that fit |
| Bytes.FieldRead | src/cluster/gossip_protocol.c:64-67 | a text that fits its NUL-padded field is read back whole, whatever follows the field |
| Bytes.BigEndianOfValue | src/cluster/gossip_protocol.c:28-38 | and on byte strings |
| Bytes.MostSignificantFirst | src/cluster/gossip_protocol.c:18-38 | in network byte order the first byte is the most significant |

## Left out

- Locks.LockTable.Acquire: one thread's view of the locks; that the program takes them correctly is the fact that the engine's methods verify against these preconditions. Readers and writers of the view lock are not told apart.
- GossipRuns.RunKeepsOrder: handlers are atomic steps; what interleaving between their lock acquisitions keeps is stated separately for single critical sections (Membership.AnyInterleavingKeepsIncarnations, Membership.PairDropsIff) and for one section between the two of a handler (Membership.TornWriteLowersIff, Membership.LateReadRevives).
- GossipEngine.Engine.HandleAck: the C code reads the incarnation of a suspected sender after it has released the lock (line 479); here it is the value of the same instant, and Membership.LateReadRevives says what a section in between does.
- GossipEngine.Engine.HandleWorkerJoin: the update of the peer pool and the member-event callbacks are not represented.
- GossipEngine.Engine.SendPing: whether the datagram leaves the node is a parameter; so are the random numbers of GossipEngine.Engine.GossipToRandomPeers.
- GossipWire.SentMessagesArrive: incarnations, timestamps and sequence numbers below 2^64 are a precondition; counters are unbounded integers elsewhere and their overflow is not modelled.
- GossipCodec.Serialize: with 16 bytes and updates to write, the stray count lands behind them, and the array is then required to go on there; what the write hits otherwise is not modelled.
- AddressText.ParseAddress: atoi on numbers beyond the C int range is not modelled.
- Bootstrap.Deserialize: an address field without a terminating NUL at the end of the buffer is read only up to the end of the buffer.
- DagCatalog.Catalog.Update: freeing and copying configurations is not represented, as in DagCatalog.Catalog.Add and DagCatalog.Catalog.Remove; neither is the change callback.
- DagCatalog.Catalog.Add: DAGs are values, so deep copies, freed configurations and an aliased zero-length configuration are not represented; dag_catalog_get hands out a pointer under a lock and is left out.
- DagRoutines.Deserialize: a failed read leaves a partly filled output and allocated configurations in C; here it returns nothing.
- DagExecutor.ExecutionContext.Execute: step bodies are a predicate that says which of them succeed; output buffers and times are left out.
- RpcChannel.Channel.OnEvent: whether and when a further event comes for what the socket kept (RpcStream.WakeUpHandsOutAllIff) is up to the peer and the kernel; writing to sockets and accepting connections are left out.
- RpcChannel.Channel.ProcessBufferedData: which handler a frame reaches, the answer when the service table is missing, and the sender id that a request context never receives are left out.
- PendingContexts.PendingList.Remove: freeing the node and sending the response are left out.
- PeerPool.Pool.Remove: closing the data channel of the peer is left out.
- PeerPool.Pool.SelectRoundRobin: the counter is a field of the pool and does not wrap; in C it is one counter for the whole process. The least-loaded choice uses floating point and is left out.
- ExecutionTracker.Tracker.UpdateStatus: no order of statuses is claimed, since the routine has no guard.
- EventBus.EventBus.DispatchNext: waiting with a timeout and the shutdown flag are left out; event data is one number.
- EventBus.Bucket.Subscribe: the slots of one event type; the check of the type number is left out here and in EventBus.Bucket.Unsubscribe.
- Allocation failure anywhere, null arguments, logging, event callbacks, sockets, epoll, thread creation and sleeping.
- Messages with more than ten updates and statuses outside the three named ones in runs of the engine.
- The peer-pool update and the member-event callbacks inside the gossip handlers.
- metrics, service registry, INI loader, the node executor and its handlers, and the logger outside the escaper: plumbing and table look-ups.
