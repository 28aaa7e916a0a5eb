# Beacon: a verified model

The beacon is a rendezvous and relay server. Nodes register with it over UDP (discover), ask it to coordinate NAT
hole punching (punch), and send it frames for other nodes (relay). Beacons tell each other which nodes they hold
(gossip sync) and hand frames on to each other; nodes that cannot use UDP connect over WebSockets (WSS).

This project models the five pieces of state that make this work and proves what holds over whole runs of them:

- **Gossip** (`Gossip`, `GossipHistory`, `GossipRaw`, `Mesh`): what the table of routes means in terms of everything that led to it,
  and that one round of syncs repairs any starting state of a mesh of beacons.
- **Relay** (`Routing`, `Relay`, `RelayRun`, `RelayOutcome`, `RelayBuffers`): the queues, batches, timers and pooled buffers between a
  received frame and the network. Nothing is lost uncounted, sent twice, reordered or altered.
- **Rate limiters** (`Sharding`, `IntervalLimiter`, `WindowLimiter`, `PunchGate`): exact counting bounds over arbitrary
  runs, and that sweeping is invisible.
- **Registration** (`NodeTable`, `Registration`, `RegistrationHistory`): the 64-shard node table as one map, and the timing property that spans
  the discover limiter, the table and the reaper.
- **WSS peers** (`WssPeers`, `WssHistory`, `WssServer`): install, replace, drop and close, interleaved step by step.
- **Bytes** (`Base`, `Address`, `Wire`, `Grant`): endpoints, frames and grant texts.

Each piece has two layers. A specification over values (datatypes, step functions, runs) carries the theorems. Classes
with arrays, maps and objects changed in place carry the code's own form, and every method's postcondition says which
step of the specification it performs, so that what is proved of all runs holds of the code's form too.

Conventions: one handler call or one critical section is one step; time is an unbounded integer of nanoseconds that
never goes backwards, read as often as the code reads it; socket results, breaker answers and the contents of tables
owned by someone else are arbitrary. `dafny verify dfyconfig.toml` (Dafny 4.11) checks the whole project.

## Where code and comments differ

The model follows the code.

- The relay limiter is described as a sliding window with a per-second budget (ratelimit_shard.go:171, server.go:190).
  It is a fixed window opened by the first relay: nearly twice the budget can pass within a second.
  `WindowLimiter.RelayBudget` and `RelayBudgetTight` give the exact maximum for every interval. A budget of 0 still lets
  one relay per window through.
- The node cap is described as an approximation of a global cap (nodes_shard.go:45-48). It never exceeds the cap, but a
  positive cap below 64 would register nobody at all (`NodeTable.RegistersNobodyIff`); the server passes 500,000.
- The generation check is described as dropping frames of a replaced connection (wss/server.go:392-394, 504-507). It does
  so exactly while a newer connection is installed: once that one is dropped the check sees generation 0 and the replaced
  connection's frame passes (`WssPeers.ReplacedFramePassesAfterDrop`, `WssPeers.PassesIff`).
- A drop takes a connection out of the table and marks it closed in two steps (wss/server.go:541-546). A connection
  installed in between replaces one that is not marked closed yet (`WssHistory.ReplacedButOpen`); `ReplacedOpenIff` says
  that this is the only way.
- `MaxPeers` is described as a cap on concurrent peers (wss/server.go:100-102). The check and the install are separate
  critical sections, so with f upgrades in flight it is exceeded by up to f - 1 (`WssPeers.CapacityAttained`).

## Model

| member | source | states |
|---|---|---|
| Address.EndpointIsKey | server.go:1585-1599 | the two notions of "same gossip source" (field comparison with IPv4-mapped forms identified, and the text key) agree for all addresses |
| Address.RelaySourceForUDP | ratelimit_shard.go:132-146 | the hand-written 16-byte key is the IPv4-mapped form of the endpoint, zero for a missing one or an odd length |
| Address.BudgetPerTransportSource | server.go:668-673 | two frames share a relay budget if and only if they come from the same bridge peer, or both as datagrams from the same endpoint |
| Wire.SyncRoundTrip | server.go:1442-1457 | a sync built from any list parses back to the same beacon id and the list cut at 65,535 ids |
| Wire.SyncCompleteIff | server.go:1445-1447 | the parsed list is the whole list if and only if it has at most 65,535 ids |
| Wire.ParsedSyncIsEncoded | server.go:1549-1577 | whatever parses as a sync begins with the encoding of what was parsed: the parser accepts no other bytes |
| Wire.BuildSync | server.go:1442-1457 | filling the message in place yields exactly the encoded sync |
| Wire.ReadSync | server.go:1563-1577 | the parsing loop yields the parsed sync, or none when the message is too short |
| Wire.RelayRoundTrip | server.go:1219-1223 | a relay frame written for a peer beacon parses there to the same sender, destination and payload |
| Wire.ForwardedVerbatim | server.go:898-899 | the frame handed to a peer beacon is the received frame, byte for byte |
| Wire.FramesDistinguish | server.go:1185-1223 | frames of the three kinds, or of one kind for different relays as far as that kind carries them, differ |
| Wire.ReplyNamesEndpoint | server.go:720-734 | every observed address has a discover reply, and two replies are equal if and only if the endpoints are |
| Wire.ReplyRoundTrip | server.go:720-734 | a reader of the reply recovers the observed IP, in short form, and port |
| Wire.SyncLayout | server.go:1449-1457 | where each field of a sync stands, as big-endian place values |
| Wire.FrameLayout | server.go:1155-1223 | where each field of the three relay frames stands, as big-endian place values |
| Grant.GrantTextInjective | server.go:764 | two grant texts are equal only if requester, target and expiry are all equal, negative expiries included |
| Grant.DecNatValue | server.go:764 | the digits written for a number denote it, without a leading zero |
| Grant.ChallengeIsNoGrant | wss/server.go:461 | the text a node signs to connect over WSS is never the text of a grant |
| Grant.AcceptedGrantWasIssued | server.go:751-781 | given unforgeable signatures, an accepted trailer proves an unexpired grant for exactly this requester, target and expiry, issued under the target's key, whatever WSS challenges that key has answered; with a registry lookup the discovered keys play no part |
| Grant.ExpiryRoundTrip | server.go:755 | the expiry read from a trailer inverts its 8-byte two's complement encoding |
| Grant.GrantAcceptedIff | server.go:751-781 | a trailer built for a grant is accepted if and only if the expiry has not passed and the signature verifies for that grant's text under the 32-byte key on file for the target |
| Sharding.FlatPut | nodes_shard.go:41-63 | storing a key in its home shard stores it in the single map, and keys stay in their home shards |
| Sharding.FlatSize | nodes_shard.go:122-130 | the shard sizes add up to the size of the single map |
| Sharding.SweepShard | nodes_shard.go:154-159 | the deleting loop over one shard keeps exactly what is to be kept and counts the rest |
| IntervalLimiter.Limiter.Allow | ratelimit_shard.go:50-59 | answers and records as the single-map limiter does |
| IntervalLimiter.Limiter.Sweep | ratelimit_shard.go:61-72 | removes exactly the entries before the cutoff, across all shards |
| IntervalLimiter.SweepInvisible | ratelimit_shard.go:90-112 | a run with sweeps gives the same answers as the same calls without any |
| IntervalLimiter.SweepInvisibleIff | server.go:1389-1392 | that holds in every run if and only if the interval is at most the sweep age plus one tick |
| IntervalLimiter.ReaperSweepsInvisible | server.go:1390-1392 | the reaper's sweeps of the punch and discover limiters never change an answer |
| WindowLimiter.Limiter.Allow | ratelimit_shard.go:189-203 | answers and advances the window as the single-map limiter does |
| WindowLimiter.Limiter.Sweep | ratelimit_shard.go:205-216 | removes exactly the windows opened before the cutoff |
| WindowLimiter.SweepInvisible | server.go:1391 | the reaper's sweeps of the relay limiter never change an answer |
| WindowLimiter.RelayBudget | server.go:957-964 | in any run, one source gets at most `Worst` relays accepted in any interval, itself at most max * (floor(seconds) + 2), whatever other sources do |
| WindowLimiter.FreshSourceBudget | ratelimit_shard.go:193-197 | at most max * (floor(seconds) + 1) when the source's first relay ever is at the start of the interval |
| WindowLimiter.RelayBudgetTight | ratelimit_shard.go:194-202 | for every budget and interval there is a run that gets exactly `Worst` through |
| WindowLimiter.OthersInvisible | ratelimit_shard.go:189-203 | what a source gets through in any interval is the same with the calls of all other sources removed |
| PunchGate.Gate.Admit | server.go:796-823 | both rate-limit gates and the bypass, as one step of the gate's state |
| PunchGate.PunchRateBound | server.go:811-823 | in any run two passing punches are 100 ms apart, two from one source 1 s; at most 10 in a half-open second and floor(w / 100 ms) + 1 in a closed interval of length w |
| PunchGate.PassesIff | server.go:811-823 | in any run a request passes if and only if no pass lies within 100 ms before it and none of its source within 1 s |
| NodeTable.NodeMap.Upsert | nodes_shard.go:49-63 | one map: refreshes a known id and keeps its notify time, refuses a new one when its share is full, else inserts |
| NodeTable.NodeMap.Snapshot | nodes_shard.go:83-92 | the stored address, if registered |
| NodeTable.NodeMap.Has | nodes_shard.go:112-118 | whether the id is registered |
| NodeTable.NodeMap.ClaimNotify | nodes_shard.go:96-109 | claims unless claimed within the gap; an unknown id changes nothing |
| NodeTable.NodeMap.Len | nodes_shard.go:122-130 | the size of the single map |
| NodeTable.NodeMap.IDs | nodes_shard.go:135-145 | every registered id exactly once, and no other |
| NodeTable.NodeMap.ReapStale | nodes_shard.go:150-163 | removes exactly the nodes last seen before the threshold and returns how many |
| NodeTable.CapNeverExceeded | nodes_shard.go:45-62 | in every run with a positive cap the table never holds more nodes than the cap |
| NodeTable.CapAttained | nodes_shard.go:58-62 | the bound is attained: a run registers 64 times a 64th of the cap, rounded down |
| NodeTable.RegistersNobodyIff | nodes_shard.go:58-60 | no run ever registers anybody if and only if the cap is from 1 to 63 (the server itself passes 500,000) |
| NodeTable.NotifiesApart | nodes_shard.go:94-109 | during the life of an entry two unthrottled notifies are at least the gap apart, across any upserts |
| NodeTable.NotifyIff | nodes_shard.go:96-109 | a registered node gets its notify if and only if every notify its present entry got is at least the gap old |
| Registration.Registry.HandleDiscover | server.go:681-745 | mark, key, limiter and table change as one discover step; short messages and an open breaker change nothing; the reply naming the observed address is withheld exactly when the update was allowed and the node is still not registered, no socket is bound, or the address cannot be encoded |
| Registration.Registry.HandlePunchRequest | server.go:825-873 | refreshes the requester; which two addresses are told to whom, or none |
| Registration.Registry.ForgetKeys | server.go:1397-1403 | exactly the keys of registered nodes remain |
| Registration.Registry.ForgetMarks | server.go:1415-1421 | exactly the marks of registered nodes remain |
| Registration.Registry.ReapStaleNodes | server.go:1385-1422 | table, discover limiter, keys and marks change as one reap step |
| Registration.SeenSinceDiscover | ratelimit_shard.go:50-59 | a registered node was last seen less than one limiter interval before any discover it ever sent, or later, although most discovers are skipped |
| Registration.NeverReapedIff | server.go:708-716 | registered nodes heard from at gaps of at most g are never reaped in any run, if and only if g is at most 9.5 minutes plus one tick |
| Registration.SurvivorsAreRecent | server.go:1385-1387 | a node that survives a reap sent a discover or punch in the 10 minutes before it |
| Registration.KeyMeaning | server.go:702-706 | the key held for a node is that of the first keyed discover since a reap last found it absent, and there is one exactly while such a discover exists |
| RegistrationHistory.NodeMeaning | server.go:708-716 | in every run a node is registered at address a with last-seen time t if and only if the latest of its punches and allowed discovers that found a place came from a at t, and no reap since found that more than 10 minutes old; allowed means no allowed discover of the id recorded within 30 s before |
| RegistrationHistory.MarkMeaning | server.go:695-700 | a node is marked for destination-carrying delivery if and only if it asked for it since a reap last found it absent |
| Registration.MarksBelongToNodes | server.go:1397-1421 | right after a reap step of any run every key and every mark belongs to a registered node; that the two deleting loops perform this step is `ForgetKeys` and `ForgetMarks` |
| Gossip.RoutingTable.IsKnownGossipPeer | server.go:1495-1507 | true if and only if some peer has the remote's IP, ports ignored |
| Gossip.RoutingTable.CopyOthers | server.go:1583-1589 | the copy holds exactly the routes not owned by the remote |
| Gossip.RoutingTable.AddListed | server.go:1590-1594 | exactly the listed ids not registered here are routed to the remote |
| Gossip.RoutingTable.HandleSync | server.go:1549-1603 | short, truncated and (strict mode) foreign syncs change nothing; any other withdraws, publishes and stamps its source |
| Gossip.RoutingTable.ExpireSources | server.go:1522-1528 | removes and returns exactly the sources last heard before the cutoff |
| Gossip.RoutingTable.SweepStaleGossip | server.go:1518-1546 | stale sources and exactly their routes go; both early returns included |
| GossipHistory.RouteMeaning | server.go:1582-1600 | in every run an id is routed to a if and only if the latest sync publishing it came from a, and a has neither synced again nor been expired since |
| GossipHistory.SeenMeaning | server.go:1599 | the last-heard map holds exactly the unexpired latest sync of each source |
| GossipHistory.OwnersAreHeard | server.go:1518-1546 | every route's owner is in the last-heard map, and after a sweep was heard at or after the cutoff |
| GossipHistory.ListedButUnrouted | server.go:1583-1594 | counterexample: an id in some source's current list may have no route; `RouteMeaning` is the exact condition |
| GossipRaw.RawRouteMeaning | server.go:1549-1603 | the same over runs of raw messages from anyone, with the strict flag and the peer list changing: only whole syncs received with strict off or from a peer's IP count |
| GossipRaw.RawSeenMeaning | server.go:1551-1599 | the last-heard map over runs of raw messages |
| GossipRaw.SourcesWereAdmitted | server.go:1555-1561 | any source in the routes or the last-heard map sent a whole sync when strict was off or some peer had its IP |
| GossipRaw.AcceptedIff | server.go:1551-1571 | an accepted message stamps its source; any other changes nothing at all |
| Mesh.OneRoundRepairs | server.go:1442-1468 | from any tables, once everyone handled one sync from everyone else, every id held somewhere is routed, at each beacon not holding it, to a holder |
| Mesh.AtMostOneHop | server.go:1181-1224 | a relay for such an id then reaches a holder from any beacon in at most one beacon-to-beacon hop |
| RelayRun.RouteLostIffTablesChanged | server.go:918-945 | for every job a worker takes in any run there is the dispatch that queued it, and the worker has no route if and only if the presence of this destination in the tables changed between the two; otherwise only a failed WSS write is counted not-found (on equal tables pre-check and worker agree: helpers `Routing.PreCheckAgrees`, `Relay.StableTablesAgree`) |
| RelayRun.QueuedFramesHaveRoutes | server.go:923-945 | corollary: while no table changes no worker finds a queued frame's destination unknown |
| RelayRun.Conservation | server.go:885-997 | at every point of every run: received = dropped + not found + limited + oversized + forwarded + failed + queued + batched |
| RelayOutcome.CountersMean | server.go:885-997 | in every run each counter is the number of events that call for it (breaker, full queue, unknown at dispatch or worker, failed WSS write, limiter, size), and exactly the frames on the wire are counted forwarded |
| RelayOutcome.QueueMeaning | server.go:980-987 | in every run each queue holds, first in first out, exactly the frames posted for its lane that its worker has not taken, as received |
| RelayRun.BatchNeverStranded | server.go:1137-1248 | at every loop head the batch is below 32, the flag mirrors the timer, and a non-empty batch has its timer armed or its tick waiting |
| RelayRun.SentExactly | server.go:1068-1117 | for every short write and every fallback outcome a flush sends exactly the messages that get out, once each, in order |
| RelayOutcome.StopOutcome | server.go:1139-1141 | over any run a stopping worker's whole batch leaves: those that get out in batch order on the wire and counted forwarded, the rest counted failed, the batch empty |
| RelayOutcome.TickOutcome | server.go:1142-1145 | the same for a timer tick, and the timer is off |
| RelayOutcome.ExpireOutcome | server.go:1245-1248 | an armed timer that runs out leaves a tick and changes nothing else |
| RelayOutcome.TakeOutcomeUnbatched | server.go:1154-1217 | a job for a WSS peer leaves at once; a failed write or an unknown destination is counted not-found and nothing else happens |
| RelayOutcome.TakeOutcomeBatched | server.go:1225-1248 | any other job joins the batch as the tables ask; below 32 nothing leaves and the timer runs, the 32nd makes the whole batch leave and stops the timer |
| RelayRun.PerDestinationOrder | server.go:1154-1248 | over any run the UDP frames for one destination leave in arrival order, and so do its WSS frames |
| RelayRun.SentOnceUnchanged | server.go:982-1248 | over any run no queued frame is sent twice, and each carries the bytes that arrived |
| RelayRun.SentAsChosen | server.go:1154-1232 | over any run every frame sent was queued by a dispatch and later taken by a worker; by the tables that worker saw it is the plain delivery over WSS to a WSS peer, else the delivery to the registered address, with the destination exactly if the node asked for it, else the relay frame to the announcing beacon |
| RelayBuffers.WriteFrame | server.go:1182-1223 | type, ids and payload land in the pooled buffer, and no reslice exceeds its capacity for payloads up to 65,535 bytes |
| RelayBuffers.Send | server.go:1068-1114 | the batch call and the per-packet fallback attempt every message exactly once, reading from the buffers what was batched; the server's running count, from which the fallback also starts, ends as the number sent |
| RelayBuffers.Server.constructor | server.go:251-261 | an empty pipeline with empty pools |
| RelayBuffers.Server.GetPayload | server.go:971-977 | a buffer nobody else uses, large enough for the payload; the pool loses it and at most one pooled buffer too small for the payload |
| RelayBuffers.Server.ReturnPayload | server.go:1270-1273 | the buffer is back in the pool and nowhere else |
| RelayBuffers.Server.Flush | server.go:1083-1129 | one flush of the value pipeline; adding the server's own count keeps the forwarded counter equal to the number of frames sent; the server has exactly the same payload and output buffers as before |
| RelayBuffers.Server.DeliverWss | server.go:1154-1174 | the frame leaves over WSS or is counted not found; the job's buffer and every output buffer are the server's again |
| RelayBuffers.Server.Collect | server.go:1225-1248 | the frame joins the batch; a full batch is flushed with its timer stopped, a first one arms it; no buffer is lost |
| RelayBuffers.Server.GiveUp | server.go:1206-1217 | counted not found; the job's buffer and the unused output buffer go back |
| RelayBuffers.Server.Take | server.go:1146-1249 | handling one job is one step of the value pipeline; the payload buffers stay the same set and no output buffer is lost |
| RelayBuffers.Server.Expire | server.go:1245-1248 | an armed timer running out is one step of the value pipeline |
| RelayBuffers.Server.Tick | server.go:1142-1145 | handling a timer tick is one step of the value pipeline; both buffer sets stay the same |
| RelayBuffers.Server.Stop | server.go:1139-1141 | shutdown flushes the batch, as one step of the value pipeline; both buffer sets stay the same |
| RelayBuffers.Server.DispatchRelay | server.go:885-997 | receiving a frame is one step of the value pipeline: every drop, its counter, and the queueing of an exact copy; no buffer is lost except at most one pooled buffer too small for this payload |
| RelayBuffers.Server.QueuedBuffersDiffer | server.go:966-996 | in every reachable state two queued jobs share no buffer, and no queued buffer is in a pool |
| RelayBuffers.Server.BatchedBuffersDiffer | server.go:1231-1232 | two batched messages share neither buffer, and no batched buffer is in its pool |
| RelayBuffers.Server.QueuedNotBatched | server.go:1119-1128 | a queued buffer is in no batch |
| RelayBuffers.Server.PayloadInOnePlace | server.go:966-996 | in every reachable state a payload buffer is in the pool if and only if no queued job and no batched message has it |
| RelayBuffers.Server.FrameInOnePlace | server.go:1122-1125 | in every reachable state an output buffer is in its pool if and only if no batched message has it |
| WssPeers.RunConsistent | wss/server.go:385-401 | in every interleaving the k-th install carries generation k + 1 modulo 2^32, and the table holds, for each node, only its latest install |
| WssPeers.NilMapNeverWritten | wss/server.go:243-252 | in every interleaving the map is nil if and only if the server is closed, and the nil map is never written |
| WssPeers.GenerationsIncreaseIff | wss/server.go:392-400 | later installs have greater generations if and only if fewer than 2^32 were made |
| WssPeers.InstalledIsNewest | wss/server.go:395-400 | the connection installed for a node has a greater generation than any other connection of that node |
| WssPeers.PassesIff | wss/server.go:504-526 | below 2^32 installs a frame passes the check if and only if its node has no connection installed, or this very one |
| WssPeers.WrapLetsStaleFramesPass | wss/server.go:508 | for every number of installs from 2^32 on there is a run in which a frame being read on a replaced connection passes although a newer connection is installed |
| WssPeers.CheckHoldsIff | wss/server.go:504-512 | the statement of `PassesIff` holds for every frame that meets the check in every run with n installs, if and only if n is below 2^32 |
| WssPeers.ReplacedFramePassesAfterDrop | wss/server.go:518-526 | counterexample: after the newer connection is dropped, a replaced connection's frame passes |
| WssPeers.DropRemovesOnlyItself | wss/server.go:537-550 | a drop removes its own entry or nothing, in every reachable state |
| WssHistory.TableMeaning | wss/server.go:385-401 | in every interleaving the table holds c for a node if and only if c was the last to install for it, and neither a drop of c nor a shutdown has happened since |
| WssHistory.ClosedIsShutdown | wss/server.go:244-252 | the server is closed, and its map nil, if and only if a shutdown has happened |
| WssHistory.ClosedMeaning | wss/server.go:395-398 | a connection is marked closed if and only if its mark was set or an install found it in the table |
| WssHistory.ReplacedOpenIff | wss/server.go:537-550 | a replaced connection is open if and only if a drop took it out of the table before the newer install and has not yet set its mark |
| WssHistory.ReplacedButOpen | wss/server.go:541-546 | counterexample: such an interleaving exists, so not every replaced connection is closed at every moment |
| WssHistory.ClosedReadsAtMostOnce | wss/server.go:476-514 | once a connection is closed, after the read in progress no frame of it ever meets the generation check again |
| WssHistory.ReadLoopMeaning | wss/server.go:479-513 | a check of an open connection starts a read, of a closed one ends the loop, and a frame leads back to the check |
| WssHistory.LoopEndsForGood | wss/server.go:486-494 | a read loop that has ended never reads again |
| WssHistory.UpgradingMeaning | wss/server.go:349-383 | the upgrades in flight are exactly those that found room and have neither failed nor reached their install |
| WssPeers.CapacityBound | wss/server.go:349-355 | with at most f upgrades in flight, peers plus upgrades never exceed MaxPeers - 1 + f; serial upgrades make MaxPeers exact |
| WssPeers.CapacityAttained | wss/server.go:385-401 | whenever MaxPeers - 1 + f nodes can exist (ids 1 to 2^32 - 1) there is a run with f upgrades in flight that installs MaxPeers - 1 + f peers |
| WssServer.Server.BeginUpgrade | wss/server.go:349-355 | the capacity check is one step of the peer table |
| WssServer.Server.Install | wss/server.go:385-401 | closing the old connection, stamping and storing the new one is one step; the object replaced is closed and the new one stands in its place; refused after close |
| WssServer.Server.Remove | wss/server.go:541-545 | the compare-and-delete, by object identity, is one step |
| WssServer.Server.MarkClosed | wss/server.go:546-549 | marks this connection and no other |
| WssServer.Server.MayRead | wss/server.go:480-482 | the loop-top check lets a read start if and only if the connection is not closed |
| WssServer.Server.Admit | wss/server.go:504-512 | dispatches if and only if the frame passes the generation check |
| WssServer.Server.GenForNode | wss/server.go:518-526 | the generation of the installed connection, 0 if there is none |
| WssServer.Server.IsConnected | wss/server.go:300-305 | true if and only if a connection is installed for the node and not closed |
| WssServer.Server.PeerCount | wss/server.go:309-314 | the number of installed connections, 0 for the nil map |
| WssServer.Server.Detach | wss/server.go:244-252 | the locked part of close is one step: closed, and the table taken away with all its connections |
| WssServer.Server.Close | wss/server.go:243-257 | then exactly the connections taken are closed, each object marked; a second close changes nothing |

## Left out

- Sockets, SO_REUSEPORT, `ReadBatch`/`WriteBatch` internals, HTTP, WebSockets, TLS: only their results appear, as arbitrary choices. A batch write is assumed to report a count from 0 to the batch length.
- Ed25519, base64, JSON, random nonces and the WSS authentication exchange: signature checking is an arbitrary function; that a key only verifies grants and WSS challenges its holder signed is an explicit hypothesis of `Grant.AcceptedGrantWasIssued`.
- Message type numbers: the protocol package is not part of this model; the types are distinct bytes.
- The bytes of the punch command and the notify message: small encoders without interesting state.
- `registryDiscover`, health endpoint, flags, logging, statistics and `cmd/beacon/main.go`: plumbing.
- wss/internal/daemonwss/wss.go: a client used by the tests.
- Panic recovery: runs are without panics.
- Hash spread of the limiter shards: the limiters are proved for every home function into their shards, so the hash itself does not appear.
- IPv6 zones and the text form of addresses: an address is its bytes and port.
- Simultaneity inside one handler: a handler call is one step, so the separate load and store of `lastPunchTime` by two racing handlers is not captured. The WSS peer table is modelled by critical sections instead.
- Overflow of 64-bit time, and clocks that step backwards.
- `sync.Pool` discarding idle buffers: pools only give back what was put in, or allocate.
- Loop freedom of relays over stale gossip tables: frames carry no hop count and two beacons can briefly point at each other, so it is not claimed.
- Mesh.OneRoundRepairs: assumes that registrations stand still during the round, that each list fits one UDP datagram (65,507 bytes), that beacons have distinct endpoints, that each beacon with strict gossip on has every other in its peer set, and that no sweep in the round is late enough to expire a source heard in it.
- WssServer.Server.Close: marks the connections without other goroutines in between; its two halves are also separate methods (`Detach`, `MarkClosed`), each one step, and `WssPeers` interleaves those freely.
- RelayRun.PerDestinationOrder: UDP and WSS frames for one destination may overtake each other when it moves to WSS with UDP frames still batched.
